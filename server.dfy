/**
 * The live handlers of server.js over the user collection and the ResetToken collection:
 * register, login (with its admin shortcut), forgot-password / verify-reset-code /
 * reset-password, the like and history lists, and the balance endpoints. Hashing (`hash`,
 * `compare`), the clock (`now`, in milliseconds), the random draw of the reset code
 * (`r < 900000`), the mail transport's success (`mailSent`) and the geolocation answer are
 * inputs.
 */
module Server {
  import opened Wrappers
  import opened JsStrings
  import opened Codes
  import opened Records
  import opened Stores
  import opened AuthGate
  import opened LoginHelpers

  /** The configured administrator credentials (environment values, possibly unset). */
  datatype AdminConfig = AdminConfig(email: Option<string>, password: Option<string>)

  const InvalidCredentials := Response(400, "Invalid credentials")
  const ServerError := Response(500, "Server error")
  /** Fifteen minutes, in milliseconds. */
  const ResetCodeLifetime := 15 * 60 * 1000
  const NotRegisteredReply := Response(200, "If that email is registered, a reset code has been sent.")
  const CodeSentReply := Response(200, "Reset code sent to your email")
  const NoSuchCode := Response(400, "Invalid code or no reset requested")
  const CodeExpired := Response(400, "Code expired")

  /** POST /api/auth/register: a new unverified user, unless a field is missing or the e-mail is taken. */
  method Register(users: UserStore, email: Option<string>, password: Option<string>, name: Option<string>,
                  hash: string -> string)
    returns (resp: Response)
    requires users.Valid()
    modifies users
    ensures users.Valid()
    ensures !Truthy(email) || !Truthy(password) ==>
      resp == Response(400, "Email and password required") && unchanged(users)
    ensures Truthy(email) && Truthy(password) && FindUserByEmail(old(users.users), ToLower(email.value)).Some? ==>
      resp == Response(400, "User already exists") && unchanged(users)
    ensures Truthy(email) && Truthy(password) && FindUserByEmail(old(users.users), ToLower(email.value)).None? ==>
      && resp == Response(201, "User registered successfully")
      && users.users == old(users.users) + [NewUser(old(users.nextId), email.value, hash(password.value), Or(name, ""))]
      && users.nextId == old(users.nextId) + 1
  {
    if !Truthy(email) || !Truthy(password) {
      return Response(400, "Email and password required");
    }
    if FindUserByEmail(users.users, ToLower(email.value)).Some? {
      return Response(400, "User already exists");
    }
    var _ := users.Add(email.value, hash(password.value), Or(name, ""));
    resp := Response(201, "User registered successfully");
  }

  /** What a login replies with; the token is represented by the claim it signs. */
  datatype LoginResult =
    | AdminSession(claim: Claim)
    | Session(claim: Claim, role: string, location: string, lastIp: Option<string>)
    | Refused(response: Response)

  /** The admin shortcut: both fields equal the configured values (`===`, so unset equals missing). */
  predicate IsAdminLogin(config: AdminConfig, email: Option<string>, password: Option<string>)
  {
    email == config.email && password == config.password
  }

  /**
   * POST /api/auth/login. The admin shortcut touches no store. Otherwise an unknown e-mail
   * and a wrong password get the same reply, and a successful login records the client
   * address and location on the user and changes nothing else.
   */
  method Login(users: UserStore, config: AdminConfig, email: Option<string>, password: Option<string>,
               origin: Origin, geo: Option<Geo>, compare: (string, string) -> bool)
    returns (r: LoginResult)
    requires users.Valid()
    modifies users
    ensures users.Valid()
    ensures IsAdminLogin(config, email, password) ==>
      r == AdminSession(Claim(None, email, Some("admin"))) && unchanged(users)
    ensures !IsAdminLogin(config, email, password) && email.None? ==> r == Refused(ServerError) && unchanged(users)
    ensures !IsAdminLogin(config, email, password) && email.Some? ==>
      var found := FindUserByEmail(old(users.users), ToLower(email.value));
      && (found.None? ==> r == Refused(InvalidCredentials) && unchanged(users))
      && (found.Some? && password.None? ==> r == Refused(ServerError) && unchanged(users))
      && (found.Some? && password.Some? && !compare(password.value, old(users.users)[found.value].password) ==>
            r == Refused(InvalidCredentials) && unchanged(users))
      && (found.Some? && password.Some? && compare(password.value, old(users.users)[found.value].password) ==>
            var u := old(users.users)[found.value];
            var ip := ServerClientIp(origin);
            && r == Session(Claim(Some(u.id), Some(u.email), None), Or(Some(u.role), "user"), ServerLocation(geo), ip)
            && users.users == old(users.users)[found.value := u.(lastIp := Some(Or(ip, "N/A")), location := Some(ServerLocation(geo)))]
            && users.nextId == old(users.nextId))
  {
    if IsAdminLogin(config, email, password) {
      return AdminSession(Claim(None, email, Some("admin")));
    }
    if email.None? {
      return Refused(ServerError);
    }
    var found := FindUserByEmail(users.users, ToLower(email.value));
    if found.None? {
      return Refused(InvalidCredentials);
    }
    var u := users.users[found.value];
    if password.None? {
      return Refused(ServerError);
    }
    if !compare(password.value, u.password) {
      return Refused(InvalidCredentials);
    }
    var ip := ServerClientIp(origin);
    var location := ServerLocation(geo);
    users.Replace(found.value, u.(lastIp := Some(Or(ip, "N/A")), location := Some(location)));
    r := Session(Claim(Some(u.id), Some(u.email), None), Or(Some(u.role), "user"), location, ip);
  }

  /**
   * POST /forgot-password. A missing e-mail is refused; an unregistered one gets a 200 and
   * no code. Otherwise every code issued for that exact spelling is deleted and one new
   * six-digit code valid for fifteen minutes is stored, whether or not the mail goes out.
   */
  method ForgotPassword(users: UserStore, resets: ResetTokenStore, email: Option<string>, now: int, r: nat, mailSent: bool)
    returns (resp: Response)
    requires resets.Valid() && r < 900000
    modifies resets
    ensures resets.Valid()
    ensures !Truthy(email) ==> resp == Response(400, "Email is required") && unchanged(resets)
    ensures Truthy(email) && FindUserByEmail(users.users, ToLower(email.value)).None? ==>
      resp == NotRegisteredReply && unchanged(resets)
    ensures Truthy(email) && FindUserByEmail(users.users, ToLower(email.value)).Some? ==>
      && resets.tokens == DropResetTokensOf(old(resets.tokens), email.value) + [ResetToken(email.value, ResetCode(r), now + ResetCodeLifetime)]
      && resp == if mailSent then CodeSentReply else Response(500, "Failed to send reset code")
  {
    if !Truthy(email) {
      return Response(400, "Email is required");
    }
    if FindUserByEmail(users.users, ToLower(email.value)).None? {
      return NotRegisteredReply;
    }
    var code := ResetCode(r);
    resets.DeleteAllFor(email.value);
    resets.Save(ResetToken(email.value, code, now + ResetCodeLifetime));
    resp := if mailSent then CodeSentReply else Response(500, "Failed to send reset code");
  }

  /**
   * Right after a code is issued for a spelling, it is the only code that spelling has:
   * looking up the e-mail with any other code finds nothing.
   */
  lemma IssuedCodeIsTheOnlyOne(tokens: seq<ResetToken>, t: ResetToken, code: string)
    requires OneCodePerEmail(tokens + [t])
    ensures FindResetToken(tokens + [t], Some(t.email), Some(code)) == if code == t.code then Some(|tokens|) else None
  {
    var all := tokens + [t];
    assert all[|tokens|] == t;
    forall k | 0 <= k < |tokens| ensures all[k].email != t.email {
      assert all[k].email != all[|tokens|].email;
    }
    var f := FindResetToken(all, Some(t.email), Some(code));
    if f.Some? {
      assert f.value == |tokens|;
    }
  }

  /** With one code per spelling, two codes with the same e-mail are the same code. */
  lemma OnlyCodeOfEmail(tokens: seq<ResetToken>, i: nat, k: nat)
    requires OneCodePerEmail(tokens) && i < |tokens| && k < |tokens|
    requires tokens[k].email == tokens[i].email
    ensures k == i
  {
  }

  /** Deleting an e-mail's code leaves none for that e-mail. */
  lemma NoCodeLeftAfterDelete(tokens: seq<ResetToken>, i: nat, code: Option<string>)
    requires OneCodePerEmail(tokens) && i < |tokens|
    ensures FindResetToken(RemoveAt(tokens, i), Some(tokens[i].email), code).None?
  {
    var rest := RemoveAt(tokens, i);
    forall k | 0 <= k < |rest| ensures rest[k].email != tokens[i].email {
      if k < i {
        assert rest[k] == tokens[k];
        assert tokens[k].email != tokens[i].email;
      } else {
        assert rest[k] == tokens[k + 1];
        assert tokens[i].email != tokens[k + 1].email;
      }
    }
  }

  /** A code is live when the filter built from the request matches it and the clock has not passed its expiry. */
  ghost predicate LiveCode(tokens: seq<ResetToken>, email: Option<string>, code: Option<string>, now: int)
  {
    exists k :: 0 <= k < |tokens| && ResetTokenMatches(tokens[k], email, code) && now <= tokens[k].expiresAt
  }

  /**
   * POST /verify-reset-code: a dry run. The first code the filter matches decides: none is
   * 400, an expired one is deleted, a live one is a success that leaves the store alone. A
   * request that names its e-mail succeeds exactly when a live code matches.
   */
  method VerifyResetCode(resets: ResetTokenStore, email: Option<string>, code: Option<string>, now: int)
    returns (resp: Response)
    requires resets.Valid()
    modifies resets
    ensures resets.Valid()
    ensures resp.status == 200 ==> LiveCode(old(resets.tokens), email, code, now)
    ensures email.Some? ==> (resp.status == 200 <==> LiveCode(old(resets.tokens), email, code, now))
    ensures var found := FindResetToken(old(resets.tokens), email, code);
      && (found.None? ==> resp == NoSuchCode && unchanged(resets))
      && (found.Some? && now > old(resets.tokens)[found.value].expiresAt ==>
            resp == CodeExpired && resets.tokens == RemoveAt(old(resets.tokens), found.value))
      && (found.Some? && now <= old(resets.tokens)[found.value].expiresAt ==>
            resp == Response(200, "Code verified successfully") && unchanged(resets))
  {
    var found := FindResetToken(resets.tokens, email, code);
    if found.None? {
      return NoSuchCode;
    }
    if now > resets.tokens[found.value].expiresAt {
      if email.Some? {
        LiveIsFirstMatch(resets.tokens, email, code, now, found.value);
      }
      resets.DeleteAt(found.value);
      return CodeExpired;
    }
    resp := Response(200, "Code verified successfully");
  }

  /**
   * With one code per spelling and the e-mail given, a live code is the first match, and
   * not expired.
   */
  lemma LiveIsFirstMatch(tokens: seq<ResetToken>, email: Option<string>, code: Option<string>, now: int, i: nat)
    requires OneCodePerEmail(tokens) && i < |tokens| && email.Some?
    requires FindResetToken(tokens, email, code) == Some(i)
    ensures LiveCode(tokens, email, code, now) <==> now <= tokens[i].expiresAt
  {
    if LiveCode(tokens, email, code, now) {
      var k :| 0 <= k < |tokens| && ResetTokenMatches(tokens[k], email, code) && now <= tokens[k].expiresAt;
      OnlyCodeOfEmail(tokens, i, k);
    }
  }

  /**
   * POST /reset-password. An unknown code, an expired code (which is deleted) and an unknown
   * user are refused; a request without an e-mail reaches `email.toLowerCase()` and fails
   * with 500. On success the password becomes the digest of the new one and the code is
   * consumed, so the same request cannot succeed again.
   */
  method ResetPassword(users: UserStore, resets: ResetTokenStore, email: Option<string>, code: Option<string>,
                       newPassword: Option<string>, now: int, hash: string -> string)
    returns (resp: Response)
    requires users.Valid() && resets.Valid()
    modifies users, resets
    ensures users.Valid() && resets.Valid()
    ensures resp.status == 200 ==> LiveCode(old(resets.tokens), email, code, now)
    ensures resp.status == 200 ==> FindResetToken(resets.tokens, email, code).None?
    ensures var found := FindResetToken(old(resets.tokens), email, code);
      && (found.None? ==> resp == NoSuchCode && unchanged(users) && unchanged(resets))
      && (found.Some? && now > old(resets.tokens)[found.value].expiresAt ==>
            resp == CodeExpired && unchanged(users) && resets.tokens == RemoveAt(old(resets.tokens), found.value))
      && (found.Some? && now <= old(resets.tokens)[found.value].expiresAt && email.None? ==>
            resp == ServerError && unchanged(users) && unchanged(resets))
      && (found.Some? && now <= old(resets.tokens)[found.value].expiresAt && email.Some? ==>
            var owner := FindUserByEmail(old(users.users), ToLower(email.value));
            && (owner.None? ==> resp == Response(404, "User not found") && unchanged(users) && unchanged(resets))
            && (owner.Some? && newPassword.None? ==> resp == ServerError && unchanged(users) && unchanged(resets))
            && (owner.Some? && newPassword.Some? ==>
                  && resp == Response(200, "Password reset successful")
                  && users.users == old(users.users)[owner.value := old(users.users)[owner.value].(password := hash(newPassword.value))]
                  && users.nextId == old(users.nextId)
                  && resets.tokens == RemoveAt(old(resets.tokens), found.value)))
  {
    var found := FindResetToken(resets.tokens, email, code);
    if found.None? {
      return NoSuchCode;
    }
    if now > resets.tokens[found.value].expiresAt {
      resets.DeleteAt(found.value);
      return CodeExpired;
    }
    if email.None? {
      return ServerError;
    }
    var owner := FindUserByEmail(users.users, ToLower(email.value));
    if owner.None? {
      return Response(404, "User not found");
    }
    if newPassword.None? {
      return ServerError;
    }
    var u := users.users[owner.value];
    users.Replace(owner.value, u.(password := hash(newPassword.value)));
    assert Some(resets.tokens[found.value].email) == email;
    NoCodeLeftAfterDelete(resets.tokens, found.value, code);
    resets.DeleteAt(found.value);
    resp := Response(200, "Password reset successful");
  }

  /**
   * As written, the filter `{ email, code }` of both handlers loses its `code` key when the
   * request has none: knowing a victim's e-mail is enough to find their live code.
   */
  lemma CodelessRequestFindsTheCode(tokens: seq<ResetToken>, i: nat)
    requires OneCodePerEmail(tokens) && i < |tokens|
    ensures FindResetToken(tokens, Some(tokens[i].email), None) == Some(i)
  {
    var r := FindResetToken(tokens, Some(tokens[i].email), None);
    assert ResetTokenMatches(tokens[i], Some(tokens[i].email), None);
    OnlyCodeOfEmail(tokens, i, r.value);
  }

  /**
   * The take-over as written: after a code is issued for a registered user, a request that
   * names only the e-mail passes verify-reset-code and then resets the password to one the
   * requester chose, without ever knowing the code.
   */
  method CodelessResetScenario(hash: string -> string) returns (verified: Response, reset: Response, password: string)
    ensures verified == Response(200, "Code verified successfully")
    ensures reset == Response(200, "Password reset successful")
    ensures password == hash("chosen-by-requester")
  {
    var victim := "v@x";
    var users := new UserStore();
    var id := users.Add(victim, hash("victim-secret"), "V");
    assert IsLower(victim);
    ToLowerFixesLower(victim);
    assert users.users == [NewUser(id, victim, hash("victim-secret"), "V")];
    assert FindUserByEmail(users.users, ToLower(victim)) == Some(0);
    var resets := new ResetTokenStore();
    resets.Save(ResetToken(victim, "481516", ResetCodeLifetime));
    CodelessRequestFindsTheCode(resets.tokens, 0);
    assert FindResetToken(resets.tokens, Some(victim), None) == Some(0);
    verified := VerifyResetCode(resets, Some(victim), None, 0);
    assert resets.tokens == [ResetToken(victim, "481516", ResetCodeLifetime)];
    reset := ResetPassword(users, resets, Some(victim), None, Some("chosen-by-requester"), 0, hash);
    password := users.users[0].password;
  }

  /** The reply of the corrected handlers to a request that leaves out a field. */
  const MissingResetFields := Response(400, "Email and code are required")

  /**
   * POST /verify-reset-code as evidently intended: the e-mail and the code are both required,
   * so a success means the request named a live code exactly.
   */
  method VerifyResetCodeChecked(resets: ResetTokenStore, email: Option<string>, code: Option<string>, now: int)
    returns (resp: Response)
    requires resets.Valid()
    modifies resets
    ensures resets.Valid()
    ensures !Truthy(email) || !Truthy(code) ==> resp == MissingResetFields && unchanged(resets)
    ensures resp.status == 200 <==>
      && Truthy(email) && Truthy(code)
      && exists k :: 0 <= k < |old(resets.tokens)| && old(resets.tokens)[k].email == email.value
           && old(resets.tokens)[k].code == code.value && now <= old(resets.tokens)[k].expiresAt
  {
    if !Truthy(email) || !Truthy(code) {
      return MissingResetFields;
    }
    resp := VerifyResetCode(resets, email, code, now);
  }

  /**
   * POST /reset-password as evidently intended: all three fields are required, so the
   * password changes only for a request that names a live code exactly, and every such
   * request for a registered user succeeds.
   */
  method ResetPasswordChecked(users: UserStore, resets: ResetTokenStore, email: Option<string>, code: Option<string>,
                              newPassword: Option<string>, now: int, hash: string -> string)
    returns (resp: Response)
    requires users.Valid() && resets.Valid()
    modifies users, resets
    ensures users.Valid() && resets.Valid()
    ensures !Truthy(email) || !Truthy(code) || !Truthy(newPassword) ==>
      resp == MissingResetFields && unchanged(users) && unchanged(resets)
    ensures resp.status == 200 ==>
      && Truthy(email) && Truthy(code) && Truthy(newPassword)
      && exists k :: 0 <= k < |old(resets.tokens)| && old(resets.tokens)[k].email == email.value
           && old(resets.tokens)[k].code == code.value && now <= old(resets.tokens)[k].expiresAt
    ensures resp.status == 200 <==>
      && Truthy(email) && Truthy(code) && Truthy(newPassword)
      && LiveCode(old(resets.tokens), email, code, now)
      && FindUserByEmail(old(users.users), ToLower(email.value)).Some?
    ensures users.users != old(users.users) ==> resp.status == 200
  {
    if !Truthy(email) || !Truthy(code) || !Truthy(newPassword) {
      return MissingResetFields;
    }
    var found := FindResetToken(resets.tokens, email, code);
    if found.Some? {
      LiveIsFirstMatch(resets.tokens, email, code, now, found.value);
    }
    resp := ResetPassword(users, resets, email, code, newPassword, now, hash);
  }

  /** `req.user._id`: the live gate attaches a stored user, or `{role, email}` for an admin claim. */
  function CallerId(p: Principal): Option<UserId>
  {
    if p.Member? then Some(p.id) else None
  }

  /** `user.likes.find(like => like.videoId === videoId)`. */
  function FindLike(likes: seq<Like>, videoId: Option<string>): (r: Option<nat>)
    ensures r.Some? ==> r.value < |likes| && Some(likes[r.value].videoId) == videoId
    ensures r.None? ==> forall k :: 0 <= k < |likes| ==> Some(likes[k].videoId) != videoId
  {
    if likes == [] then None
    else if Some(likes[0].videoId) == videoId then Some(0)
    else
      var r := FindLike(likes[1..], videoId);
      if r.Some? then Some(r.value + 1) else None
  }

  datatype LikeReply = UserNotFound | AlreadyLiked | Liked(likes: seq<Like>) | LikeFailed

  /**
   * POST /api/like. A video already liked is not liked again; otherwise exactly one like is
   * appended. A like without a video id fails the schema's `required` check and is not saved.
   */
  method LikeVideo(users: UserStore, caller: Principal, videoId: Option<string>, title: Option<string>,
                   url: Option<string>, now: int)
    returns (reply: LikeReply)
    requires users.Valid()
    modifies users
    ensures users.Valid() && users.nextId == old(users.nextId)
    ensures var i := FindUserById(old(users.users), CallerId(caller));
      && (i.None? ==> reply == UserNotFound && unchanged(users))
      && (i.Some? && FindLike(old(users.users)[i.value].likes, videoId).Some? ==> reply == AlreadyLiked && unchanged(users))
      && (i.Some? && FindLike(old(users.users)[i.value].likes, videoId).None? && !Truthy(videoId) ==>
            reply == LikeFailed && unchanged(users))
      && (i.Some? && FindLike(old(users.users)[i.value].likes, videoId).None? && Truthy(videoId) ==>
            var u := old(users.users)[i.value];
            var likes := u.likes + [Like(videoId.value, title, url, now)];
            reply == Liked(likes) && users.users == old(users.users)[i.value := u.(likes := likes)])
  {
    var i := FindUserById(users.users, CallerId(caller));
    if i.None? {
      return UserNotFound;
    }
    var u := users.users[i.value];
    if FindLike(u.likes, videoId).Some? {
      return AlreadyLiked;
    }
    if !Truthy(videoId) {
      return LikeFailed;
    }
    var likes := u.likes + [Like(videoId.value, title, url, now)];
    LikeKeepsVideosDistinct(u.likes, videoId, Like(videoId.value, title, url, now));
    users.Replace(i.value, u.(likes := likes));
    reply := Liked(likes);
  }

  /**
   * A like is appended only when `likes.find` found no like of that video, so the appended
   * video id is new and every video stays liked at most once.
   */
  lemma LikeKeepsVideosDistinct(likes: seq<Like>, videoId: Option<string>, l: Like)
    requires DistinctVideoIds(likes)
    requires FindLike(likes, videoId).None? && videoId == Some(l.videoId)
    ensures forall k :: 0 <= k < |likes| ==> likes[k].videoId != l.videoId
    ensures DistinctVideoIds(likes + [l])
  {
    var all := likes + [l];
    forall i, j | 0 <= i < j < |all| ensures all[i].videoId != all[j].videoId {
      if j == |likes| {
        assert all[i] == likes[i] && all[j] == l;
      } else {
        assert all[i] == likes[i] && all[j] == likes[j];
      }
    }
  }

  /** Two likes of the same video in a valid store's list are the same like. */
  lemma LikedAtMostOnce(users: UserStore, u: nat, i: nat, j: nat)
    requires users.Valid() && u < |users.users|
    requires i < |users.users[u].likes| && j < |users.users[u].likes|
    requires users.users[u].likes[i].videoId == users.users[u].likes[j].videoId
    ensures i == j
  {
    assert DistinctVideoIds(users.users[u].likes);
  }

  datatype HistoryReply = NoUser | Recorded(history: seq<Watch>) | HistoryFailed

  /** POST /api/history: always appends exactly one entry (when the entry has a video id). */
  method RecordHistory(users: UserStore, caller: Principal, videoId: Option<string>, title: Option<string>,
                       url: Option<string>, now: int)
    returns (reply: HistoryReply)
    requires users.Valid()
    modifies users
    ensures users.Valid() && users.nextId == old(users.nextId)
    ensures var i := FindUserById(old(users.users), CallerId(caller));
      && (i.None? ==> reply == NoUser && unchanged(users))
      && (i.Some? && !Truthy(videoId) ==> reply == HistoryFailed && unchanged(users))
      && (i.Some? && Truthy(videoId) ==>
            var u := old(users.users)[i.value];
            var history := u.history + [Watch(videoId.value, title, url, now)];
            reply == Recorded(history) && users.users == old(users.users)[i.value := u.(history := history)])
  {
    var i := FindUserById(users.users, CallerId(caller));
    if i.None? {
      return NoUser;
    }
    if !Truthy(videoId) {
      return HistoryFailed;
    }
    var u := users.users[i.value];
    var history := u.history + [Watch(videoId.value, title, url, now)];
    users.Replace(i.value, u.(history := history));
    reply := Recorded(history);
  }

  /**
   * GET /api/user/balance: the stored balance, 0 when unset. None stands for no reply at all:
   * when the caller's record is missing (an admin claim has no `id`) the handler throws
   * outside any `try` and the request is never answered.
   */
  function Balance(users: seq<User>, caller: Principal): (reply: Option<int>)
    ensures reply.Some? <==> FindUserById(users, CallerId(caller)).Some?
    ensures reply.Some? ==> exists i :: 0 <= i < |users| && Some(users[i].id) == CallerId(caller) && reply.value == users[i].balance.GetOr(0)
  {
    var i := FindUserById(users, CallerId(caller));
    if i.None? then None else Some(users[i.value].balance.GetOr(0))
  }

  /** POST /api/user/balance: overwrites the caller's balance with the request's value; always replies success. */
  method SetBalance(users: UserStore, caller: Principal, balance: Option<int>)
    requires users.Valid()
    modifies users
    ensures users.Valid() && users.nextId == old(users.nextId)
    ensures var i := FindUserById(old(users.users), CallerId(caller));
      && (i.None? ==> unchanged(users))
      && (i.Some? ==> users.users == old(users.users)[i.value := old(users.users)[i.value].(balance := balance)])
  {
    var i := FindUserById(users.users, CallerId(caller));
    if i.Some? {
      users.Replace(i.value, users.users[i.value].(balance := balance));
    }
  }

  /** POST /api/user/withdraw: the balance becomes 0; no reply when the caller has no record. */
  method Withdraw(users: UserStore, caller: Principal) returns (reply: Option<Response>)
    requires users.Valid()
    modifies users
    ensures users.Valid() && users.nextId == old(users.nextId)
    ensures var i := FindUserById(old(users.users), CallerId(caller));
      && (i.None? ==> reply.None? && unchanged(users))
      && (i.Some? ==> reply == Some(Response(200, "Withdrawal requested"))
                      && users.users == old(users.users)[i.value := old(users.users)[i.value].(balance := Some(0))])
  {
    var i := FindUserById(users.users, CallerId(caller));
    if i.None? {
      return None;
    }
    users.Replace(i.value, users.users[i.value].(balance := Some(0)));
    reply := Some(Response(200, "Withdrawal requested"));
  }
}
