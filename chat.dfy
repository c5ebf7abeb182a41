/**
 * The chat router (backend/routes/chat.js): users write to the single admin mailbox, the
 * admin reads its inbox and per-user conversations and replies; every route sits behind the
 * router's own gate (AuthGate.ChatAuth). The admin is recognised by e-mail alone.
 */
module Chat {
  import opened Wrappers
  import opened JsStrings
  import opened Records
  import opened Stores
  import opened AuthGate
  import Server

  const DefaultAdminEmail: string := "adminfunds@gmail.com"

  /** `process.env.ADMIN_EMAIL || 'adminfunds@gmail.com'`: never empty. */
  function AdminEmail(env: Option<string>): (admin: string)
    ensures admin != ""
    ensures Truthy(env) ==> admin == env.value
    ensures !Truthy(env) ==> admin == DefaultAdminEmail
  {
    Or(env, DefaultAdminEmail)
  }

  /** `req.user.email !== adminEmail` decides the admin routes; the role is never looked at. */
  predicate IsAdminCaller(claim: Claim, admin: string)
  {
    claim.email == Some(admin)
  }

  /** What a listing route replies: the messages, or an error status and message. */
  datatype Listing = Listed(messages: seq<ChatMessage>) | Refused(response: Response)

  /** A `find` filter: the stored messages it matches, in store order. */
  function Select(msgs: seq<ChatMessage>, keep: ChatMessage -> bool): (r: seq<ChatMessage>)
    ensures forall m :: multiset(r)[m] == if keep(m) then multiset(msgs)[m] else 0
  {
    if msgs == [] then []
    else
      var rest := msgs[..|msgs| - 1];
      var last := msgs[|msgs| - 1];
      assert msgs == rest + [last];
      Select(rest, keep) + (if keep(last) then [last] else [])
  }

  /** Each message is no earlier than the one before it. */
  predicate SortedByTime(s: seq<ChatMessage>)
  {
    forall i :: 0 < i < |s| ==> s[i - 1].timestamp <= s[i].timestamp
  }

  /** Sorted neighbours make a sorted list: any earlier message is no later than any later one. */
  lemma {:induction false} SortedAllPairs(s: seq<ChatMessage>, i: nat, j: nat)
    requires SortedByTime(s) && i <= j < |s|
    ensures s[i].timestamp <= s[j].timestamp
    decreases j - i
  {
    if i < j {
      SortedAllPairs(s, i + 1, j);
      assert s[i].timestamp <= s[i + 1].timestamp;
    }
  }

  lemma ConsSorted(x: ChatMessage, s: seq<ChatMessage>)
    requires SortedByTime(s)
    requires s != [] ==> x.timestamp <= s[0].timestamp
    ensures SortedByTime([x] + s)
  {
    var r := [x] + s;
    forall i | 0 < i < |r| ensures r[i - 1].timestamp <= r[i].timestamp {
      if i > 1 {
        assert r[i - 1] == s[i - 2] && r[i] == s[i - 1];
      }
    }
  }

  lemma SortedTail(s: seq<ChatMessage>)
    requires SortedByTime(s) && s != []
    ensures SortedByTime(s[1..])
  {
    var t := s[1..];
    forall i | 0 < i < |t| ensures t[i - 1].timestamp <= t[i].timestamp {
      assert t[i - 1] == s[i] && t[i] == s[i + 1];
    }
  }

  /** Places `m` after every message of `s` not later than it. */
  function Insert(m: ChatMessage, s: seq<ChatMessage>): (r: seq<ChatMessage>)
    requires SortedByTime(s)
    ensures SortedByTime(r)
    ensures multiset(r) == multiset(s) + multiset{m}
    ensures |r| == |s| + 1
    ensures r[0].timestamp == m.timestamp || (s != [] && r[0].timestamp == s[0].timestamp)
  {
    if s == [] then [m]
    else if m.timestamp < s[0].timestamp then
      ConsSorted(m, s);
      assert multiset([m] + s) == multiset{m} + multiset(s);
      [m] + s
    else
      var tail := s[1..];
      SortedTail(s);
      var rest := Insert(m, tail);
      assert s == [s[0]] + tail;
      assert multiset(s) == multiset{s[0]} + multiset(tail);
      assert multiset([s[0]] + rest) == multiset{s[0]} + multiset(rest);
      ConsSorted(s[0], rest);
      [s[0]] + rest
  }

  /** `.sort({ timestamp: 1 })`: the same messages, earliest first (ties in one valid order). */
  function SortByTime(s: seq<ChatMessage>): (r: seq<ChatMessage>)
    ensures SortedByTime(r)
    ensures multiset(r) == multiset(s)
  {
    if s == [] then []
    else
      assert s == s[..|s| - 1] + [s[|s| - 1]];
      Insert(s[|s| - 1], SortByTime(s[..|s| - 1]))
  }

  /** The admin-messages filter `{ recipient: adminEmail }`. */
  predicate ToAdmin(m: ChatMessage, admin: string)
  {
    m.recipient == admin
  }

  /** The filter of GET /messages/:userEmail, terms in the order the admin route writes them. */
  predicate AdminSide(m: ChatMessage, admin: string, userEmail: string)
  {
    (m.sender == Some(admin) && m.recipient == userEmail) || (m.sender == Some(userEmail) && m.recipient == admin)
  }

  /**
   * The filter of GET /my-messages for the caller's e-mail. A claim without one drops the
   * e-mail key from both terms (Records.KeyMatches).
   */
  predicate UserSide(m: ChatMessage, admin: string, userEmail: Option<string>)
  {
    (KeyMatches(m.sender, userEmail) && m.recipient == admin) || (m.sender == Some(admin) && KeyMatches(Some(m.recipient), userEmail))
  }

  /** The 401 of the gate, then the 403 for anyone but the admin address. */
  function AdminGate(auth: ChatCaller, admin: string): (r: Option<Response>)
    ensures r.None? <==> auth.Caller? && IsAdminCaller(auth.claim, admin)
    ensures auth.Rejected? ==> r == Some(Response(401, auth.message))
    ensures auth.Caller? && !IsAdminCaller(auth.claim, admin) ==> r == Some(Response(403, "Forbidden: Admin only"))
  {
    if auth.Rejected? then Some(Response(401, auth.message))
    else if !IsAdminCaller(auth.claim, admin) then Some(Response(403, "Forbidden: Admin only"))
    else None
  }

  /** GET /admin-messages: everything addressed to the admin, earliest first. */
  function AdminMessages(auth: ChatCaller, msgs: seq<ChatMessage>, admin: string): (l: Listing)
    ensures AdminGate(auth, admin).Some? ==> l == Refused(AdminGate(auth, admin).value)
    ensures AdminGate(auth, admin).None? ==>
      && l.Listed? && SortedByTime(l.messages)
      && forall m :: multiset(l.messages)[m] == if ToAdmin(m, admin) then multiset(msgs)[m] else 0
  {
    var gate := AdminGate(auth, admin);
    if gate.Some? then Refused(gate.value)
    else Listed(SortByTime(Select(msgs, m => ToAdmin(m, admin))))
  }

  /** GET /messages/:userEmail: the admin's conversation with one user, earliest first. */
  function Conversation(auth: ChatCaller, msgs: seq<ChatMessage>, admin: string, userEmail: string): (l: Listing)
    ensures AdminGate(auth, admin).Some? ==> l == Refused(AdminGate(auth, admin).value)
    ensures AdminGate(auth, admin).None? ==>
      && l.Listed? && SortedByTime(l.messages)
      && forall m :: multiset(l.messages)[m] == if AdminSide(m, admin, userEmail) then multiset(msgs)[m] else 0
  {
    var gate := AdminGate(auth, admin);
    if gate.Some? then Refused(gate.value)
    else Listed(SortByTime(Select(msgs, m => AdminSide(m, admin, userEmail))))
  }

  /** GET /my-messages: any authenticated caller's conversation with the admin, earliest first. */
  function MyMessages(auth: ChatCaller, msgs: seq<ChatMessage>, admin: string): (l: Listing)
    ensures auth.Rejected? ==> l == Refused(Response(401, auth.message))
    ensures auth.Caller? ==>
      && l.Listed? && SortedByTime(l.messages)
      && forall m :: multiset(l.messages)[m] == if UserSide(m, admin, auth.claim.email) then multiset(msgs)[m] else 0
  {
    if auth.Rejected? then Refused(Response(401, auth.message))
    else Listed(SortByTime(Select(msgs, m => UserSide(m, admin, auth.claim.email))))
  }

  /**
   * A user reading their own history sees the same messages as the admin reading the
   * conversation with that user: the two filters name the same pairs in opposite order.
   */
  lemma {:induction false} BothSidesSeeTheSameConversation(msgs: seq<ChatMessage>, admin: string, user: Claim, adminClaim: Claim)
    requires user.email.Some? && IsAdminCaller(adminClaim, admin)
    ensures multiset(MyMessages(Caller(user), msgs, admin).messages)
         == multiset(Conversation(Caller(adminClaim), msgs, admin, user.email.value).messages)
  {
    var mine := MyMessages(Caller(user), msgs, admin).messages;
    var theirs := Conversation(Caller(adminClaim), msgs, admin, user.email.value).messages;
    forall m
      ensures multiset(mine)[m] == multiset(theirs)[m]
    {
      assert UserSide(m, admin, user.email) == AdminSide(m, admin, user.email.value);
    }
    assert multiset(mine) == multiset(theirs);
  }

  /** Two different users who are not the admin never see each other's messages. */
  lemma ConversationsAreDisjoint(msgs: seq<ChatMessage>, admin: string, u: Claim, v: Claim, m: ChatMessage)
    requires u.email.Some? && v.email.Some? && u.email != v.email
    requires !IsAdminCaller(u, admin) && !IsAdminCaller(v, admin)
    requires m in MyMessages(Caller(u), msgs, admin).messages
    ensures m !in MyMessages(Caller(v), msgs, admin).messages
  {
    assert multiset(MyMessages(Caller(u), msgs, admin).messages)[m] > 0;
    assert UserSide(m, admin, u.email);
    assert !UserSide(m, admin, v.email);
    assert multiset(MyMessages(Caller(v), msgs, admin).messages)[m] == 0;
  }

  /**
   * A verified claim that carries no e-mail reads the admin's whole traffic: its filter
   * matches every message to the admin and every message from the admin.
   */
  lemma EmaillessCallerReadsAllAdminTraffic(msgs: seq<ChatMessage>, admin: string, claim: Claim)
    requires claim.email.None?
    ensures forall m :: multiset(MyMessages(Caller(claim), msgs, admin).messages)[m]
                     == if m.recipient == admin || m.sender == Some(admin) then multiset(msgs)[m] else 0
  {
    forall m
      ensures multiset(MyMessages(Caller(claim), msgs, admin).messages)[m]
           == if m.recipient == admin || m.sender == Some(admin) then multiset(msgs)[m] else 0
    {
      assert UserSide(m, admin, None) <==> m.recipient == admin || m.sender == Some(admin);
    }
  }

  /**
   * The e-mail-less claim is reachable: with the admin credentials unset, a login that sends
   * neither field takes the live server's admin shortcut, which signs exactly
   * `Claim(None, None, Some("admin"))` (Server.Login). The chat gate admits that claim as it
   * is, and its history is every message to or from the admin.
   */
  lemma UnconfiguredAdminLoginReadsAdminTraffic(msgs: seq<ChatMessage>, header: Option<string>,
                                                verify: string -> Option<Claim>, admin: string)
    requires Decoded(header, verify) == Some(Claim(None, None, Some("admin")))
    ensures Server.IsAdminLogin(Server.AdminConfig(None, None), None, None)
    ensures ChatAuth(header, verify) == Caller(Claim(None, None, Some("admin")))
    ensures forall m :: multiset(MyMessages(ChatAuth(header, verify), msgs, admin).messages)[m]
                     == if m.recipient == admin || m.sender == Some(admin) then multiset(msgs)[m] else 0
  {
    assert Truthy(header);
    EmaillessCallerReadsAllAdminTraffic(msgs, admin, Claim(None, None, Some("admin")));
  }

  /**
   * The admin routes are decided by the e-mail in the claim: an "admin" role with another
   * address is forbidden, and the admin address with any role is admitted.
   */
  lemma AdminIsAnAddressNotARole(msgs: seq<ChatMessage>, admin: string, id: Option<UserId>, email: string, role: Option<string>)
    requires email != admin
    ensures AdminMessages(Caller(Claim(id, Some(email), Some("admin"))), msgs, admin) == Refused(Response(403, "Forbidden: Admin only"))
    ensures AdminMessages(Caller(Claim(id, Some(admin), role)), msgs, admin).Listed?
  {
  }

  /**
   * POST /send-to-admin: a missing or empty message is refused; otherwise one message from
   * the caller's e-mail to the admin, stamped `now`, is stored.
   */
  method SendToAdmin(store: ChatStore, auth: ChatCaller, message: Option<string>, admin: string, now: int)
    returns (resp: Response)
    modifies store
    ensures auth.Rejected? ==> resp == Response(401, auth.message) && unchanged(store)
    ensures auth.Caller? && !Truthy(message) ==> resp == Response(400, "Message is required") && unchanged(store)
    ensures auth.Caller? && Truthy(message) ==>
      && resp == Response(200, "Sent to admin")
      && store.messages == old(store.messages) + [ChatMessage(auth.claim.email, admin, message.value, now)]
  {
    if auth.Rejected? {
      return Response(401, auth.message);
    }
    if !Truthy(message) {
      return Response(400, "Message is required");
    }
    store.Add(ChatMessage(auth.claim.email, admin, message.value, now));
    resp := Response(200, "Sent to admin");
  }

  /**
   * POST /messages/:userEmail: only the admin address may send; a missing or empty message
   * is refused; otherwise one message from the admin to that user, stamped `now`, is stored.
   */
  method SendToUser(store: ChatStore, auth: ChatCaller, userEmail: string, message: Option<string>, admin: string, now: int)
    returns (resp: Response)
    modifies store
    ensures AdminGate(auth, admin).Some? ==> resp == AdminGate(auth, admin).value && unchanged(store)
    ensures AdminGate(auth, admin).None? && !Truthy(message) ==> resp == Response(400, "Message is required") && unchanged(store)
    ensures AdminGate(auth, admin).None? && Truthy(message) ==>
      && resp == Response(200, "Message sent to user")
      && store.messages == old(store.messages) + [ChatMessage(Some(admin), userEmail, message.value, now)]
  {
    var gate := AdminGate(auth, admin);
    if gate.Some? {
      return gate.value;
    }
    if !Truthy(message) {
      return Response(400, "Message is required");
    }
    store.Add(ChatMessage(Some(admin), userEmail, message.value, now));
    resp := Response(200, "Message sent to user");
  }

  /**
   * A message a user sends to the admin shows in the admin's inbox, in the admin's
   * conversation with that user and in the user's own history.
   */
  lemma SentMessageIsVisible(msgs: seq<ChatMessage>, admin: string, user: Claim, adminClaim: Claim, text: string, now: int)
    requires user.email.Some? && IsAdminCaller(adminClaim, admin)
    ensures var m := ChatMessage(user.email, admin, text, now);
      && m in AdminMessages(Caller(adminClaim), msgs + [m], admin).messages
      && m in Conversation(Caller(adminClaim), msgs + [m], admin, user.email.value).messages
      && m in MyMessages(Caller(user), msgs + [m], admin).messages
  {
    var m := ChatMessage(user.email, admin, text, now);
    var all := msgs + [m];
    assert multiset(all)[m] > 0 by {
      assert all[|msgs|] == m;
    }
    assert ToAdmin(m, admin) && AdminSide(m, admin, user.email.value) && UserSide(m, admin, user.email);
    assert multiset(AdminMessages(Caller(adminClaim), all, admin).messages)[m] > 0;
    assert multiset(Conversation(Caller(adminClaim), all, admin, user.email.value).messages)[m] > 0;
    assert multiset(MyMessages(Caller(user), all, admin).messages)[m] > 0;
  }
}
