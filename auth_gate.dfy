/**
 * Request authentication: the bearer token is the second space-separated field of the
 * Authorization header, the session verifier is an oracle (`verify` returns the decoded
 * claim, or None when the signature or the expiry check fails), and the claimed identity is
 * resolved against the user collection. Three gates exist: the live server's (with an admin
 * bypass), the middleware module's (without one) and the chat router's (no lookup at all).
 */
module AuthGate {
  import opened Wrappers
  import opened JsStrings
  import opened Records

  /** The identity a gate attaches to the request, or the 401 message it replies with. */
  datatype Principal =
    | Admin(claimedEmail: Option<string>)
    | Member(id: UserId, email: string, role: string)
    | Unauth(message: string)

  /** `header?.split(' ')[1]`. */
  function BearerToken(header: Option<string>): Option<string>
  {
    if header.None? then None else FieldAt(header.value, ' ', 1)
  }

  /** "Bearer <t>" yields exactly t, for any scheme word and any t without a space. */
  lemma BearerRoundTrip(scheme: string, t: string)
    requires ' ' !in scheme && ' ' !in t
    ensures BearerToken(Some(scheme + " " + t)) == Some(t)
  {
    SplitAtFirst(scheme, ' ', t);
    SplitWithoutSep(t, ' ');
  }

  /** A header without a space, such as a bare token, yields no token. */
  lemma NoSpaceNoToken(header: string)
    requires ' ' !in header
    ensures BearerToken(Some(header)).None?
  {
    SplitWithoutSep(header, ' ');
  }

  /** The claim a usable bearer token decodes to, if any. */
  function Decoded(header: Option<string>, verify: string -> Option<Claim>): Option<Claim>
  {
    var t := BearerToken(header);
    if Truthy(t) then verify(t.value) else None
  }

  /**
   * The live server's `authMiddleware`: no token, a token that does not verify, and a
   * non-admin claim whose id names no stored user are each refused; an admin claim is let
   * through on the strength of the signature alone.
   */
  function ServerAuth(header: Option<string>, verify: string -> Option<Claim>, users: seq<User>): (p: Principal)
    ensures p == Unauth("No token") <==> !Truthy(BearerToken(header))
    ensures p == Unauth("Invalid token") <==> Truthy(BearerToken(header)) && Decoded(header, verify).None?
    ensures p.Admin? <==> Decoded(header, verify).Some? && Decoded(header, verify).value.role == Some("admin")
    ensures p.Admin? ==> p.claimedEmail == Decoded(header, verify).value.email
    ensures p.Member? ==>
      && Decoded(header, verify).Some?
      && Decoded(header, verify).value.role != Some("admin")
      && Decoded(header, verify).value.id == Some(p.id)
      && exists i :: 0 <= i < |users| && users[i].id == p.id && users[i].email == p.email && users[i].role == p.role
    ensures p == Unauth("User not found") <==>
      && Decoded(header, verify).Some?
      && Decoded(header, verify).value.role != Some("admin")
      && FindUserById(users, Decoded(header, verify).value.id).None?
  {
    var t := BearerToken(header);
    if !Truthy(t) then Unauth("No token")
    else
      var decoded := verify(t.value);
      if decoded.None? then Unauth("Invalid token")
      else if decoded.value.role == Some("admin") then Admin(decoded.value.email)
      else
        var i := FindUserById(users, decoded.value.id);
        if i.None? then Unauth("User not found")
        else Member(users[i.value].id, users[i.value].email, users[i.value].role)
  }

  /** The live server admits an admin claim without reading the user collection at all. */
  lemma ServerAdminNeedsNoLookup(header: Option<string>, verify: string -> Option<Claim>, users: seq<User>, others: seq<User>)
    requires ServerAuth(header, verify, users).Admin?
    ensures ServerAuth(header, verify, others) == ServerAuth(header, verify, users)
  {
  }

  /**
   * middleware/authMiddleware.js: the same token checks, but every claim, an admin one
   * included, is looked up by its id, and the attached identity is the stored record's.
   */
  function MiddlewareAuth(header: Option<string>, verify: string -> Option<Claim>, users: seq<User>): (p: Principal)
    ensures !p.Admin?
    ensures p == Unauth("No token") <==> !Truthy(BearerToken(header))
    ensures p == Unauth("Invalid token") <==> Truthy(BearerToken(header)) && Decoded(header, verify).None?
    ensures p == Unauth("User not found") <==>
      Decoded(header, verify).Some? && FindUserById(users, Decoded(header, verify).value.id).None?
    ensures p.Member? ==>
      && Decoded(header, verify).Some?
      && Decoded(header, verify).value.id == Some(p.id)
      && exists i :: 0 <= i < |users| && users[i].id == p.id && users[i].email == p.email && users[i].role == p.role
  {
    var t := BearerToken(header);
    if !Truthy(t) then Unauth("No token")
    else
      var decoded := verify(t.value);
      if decoded.None? then Unauth("Invalid token")
      else
        var i := FindUserById(users, decoded.value.id);
        if i.None? then Unauth("User not found")
        else Member(users[i.value].id, users[i.value].email, users[i.value].role)
  }

  /**
   * There is no admin bypass in the middleware module: the admin claim login issues carries
   * no id, so it is refused with "User not found" where the live server lets it in.
   */
  lemma MiddlewareRefusesIdlessAdmin(header: Option<string>, verify: string -> Option<Claim>, users: seq<User>, email: Option<string>)
    requires Decoded(header, verify) == Some(Claim(None, email, Some("admin")))
    ensures MiddlewareAuth(header, verify, users) == Unauth("User not found")
    ensures ServerAuth(header, verify, users) == Admin(email)
  {
  }

  /**
   * The identity the middleware attaches comes from the store: whatever e-mail or role the
   * claim carries, the result is the stored user's id, e-mail and role.
   */
  lemma MiddlewareUsesStoredRecord(header: Option<string>, verify: string -> Option<Claim>, users: seq<User>, i: nat)
    requires Decoded(header, verify).Some? && Decoded(header, verify).value.id.Some?
    requires i < |users| && users[i].id == Decoded(header, verify).value.id.value
    requires forall j, k :: 0 <= j < k < |users| ==> users[j].id != users[k].id
    ensures MiddlewareAuth(header, verify, users) == Member(users[i].id, users[i].email, users[i].role)
  {
    var r := FindUserById(users, Decoded(header, verify).value.id);
    assert r == Some(i);
  }

  /**
   * The live server admits a non-admin claim whose id is stored, and attaches the stored
   * record: the result is that user's id, e-mail and role, whatever else the claim says.
   */
  lemma ServerUsesStoredRecord(header: Option<string>, verify: string -> Option<Claim>, users: seq<User>, i: nat)
    requires Decoded(header, verify).Some? && Decoded(header, verify).value.role != Some("admin")
    requires Decoded(header, verify).value.id.Some?
    requires i < |users| && users[i].id == Decoded(header, verify).value.id.value
    requires forall j, k :: 0 <= j < k < |users| ==> users[j].id != users[k].id
    ensures ServerAuth(header, verify, users) == Member(users[i].id, users[i].email, users[i].role)
  {
    var r := FindUserById(users, Decoded(header, verify).value.id);
    assert r == Some(i);
  }

  /** What the chat router's gate attaches: the decoded claim itself, or the 401 message. */
  datatype ChatCaller = Caller(claim: Claim) | Rejected(message: string)

  /**
   * backend/routes/chat.js: a missing or empty header is "No token"; any other header without
   * a second field reaches the verifier as `undefined` (or ""), which it refuses like any bad
   * token.
   */
  function ChatAuth(header: Option<string>, verify: string -> Option<Claim>): (c: ChatCaller)
    ensures c == Rejected("No token") <==> !Truthy(header)
    ensures c == Rejected("Invalid token") <==> Truthy(header) && Decoded(header, verify).None?
    ensures c.Caller? ==> Decoded(header, verify) == Some(c.claim)
    ensures Truthy(header) && Decoded(header, verify).Some? ==> c == Caller(Decoded(header, verify).value)
  {
    if !Truthy(header) then Rejected("No token")
    else
      var t := BearerToken(header);
      if !Truthy(t) then Rejected("Invalid token")
      else
        var decoded := verify(t.value);
        if decoded.None? then Rejected("Invalid token") else Caller(decoded.value)
  }
}
