/**
 * The documents of the application's collections (models/User.js, models/ResetToken.js,
 * models/Video.js, the chat and token schemas) and the store queries the handlers issue:
 * `findOne` is the first match in the collection's natural order, `deleteOne` removes that
 * document, `deleteMany` removes every match.
 */
module Records {
  import opened Wrappers
  import opened JsStrings

  type UserId = nat

  /** A liked video, as the like handler pushes it (`likedAt` is the clock at that moment). */
  datatype Like = Like(videoId: string, title: Option<string>, url: Option<string>, likedAt: int)

  /** A watch-history entry. */
  datatype Watch = Watch(videoId: string, title: Option<string>, url: Option<string>, watchedAt: int)

  /**
   * A user document. `password` holds the bcrypt digest; `lastIp` and `location` are written
   * by login; `balance` only by the balance endpoints.
   */
  datatype User = User(
    id: UserId,
    email: string,
    password: string,
    name: string,
    role: string,
    isVerified: bool,
    lastIp: Option<string>,
    location: Option<string>,
    likes: seq<Like>,
    history: seq<Watch>,
    balance: Option<int>)

  /** A new user document with the schema's defaults: role "user", not verified, no likes or history. */
  function NewUser(id: UserId, email: string, password: string, name: string): (u: User)
    ensures u.id == id && u.email == ToLower(email) && u.password == password && u.name == name
    ensures u.role == "user" && !u.isVerified
    ensures u.likes == [] && u.history == [] && u.lastIp.None? && u.location.None? && u.balance.None?
  {
    User(id, ToLower(email), password, name, "user", false, None, None, [], [], None)
  }

  /** A live-server reset code, keyed by the e-mail exactly as the request spelled it. */
  datatype ResetToken = ResetToken(email: string, code: string, expiresAt: int)

  /** The two kinds of token of the auth router. */
  datatype TokenKind = Verify | Reset

  /** A token of the auth router: a random hex value bound to a user, a kind tag and an expiry. */
  datatype Token = Token(userId: UserId, value: string, kind: TokenKind, expiresAt: int)

  datatype Video = Video(title: string, url: string, uploadedBy: string)

  /** A chat message; `sender` is the caller's claimed e-mail, which a claim may lack. */
  datatype ChatMessage = ChatMessage(sender: Option<string>, recipient: string, message: string, timestamp: int)

  /** The decoded payload of a session token. */
  datatype Claim = Claim(id: Option<UserId>, email: Option<string>, role: Option<string>)

  /** The HTTP status and the `message`/`error` text of a JSON reply. */
  datatype Response = Response(status: int, message: string)

  /** `User.findOne({ email })`: the first user with that e-mail. */
  function FindUserByEmail(users: seq<User>, email: string): (r: Option<nat>)
    ensures r.Some? ==> r.value < |users| && users[r.value].email == email
    ensures r.Some? ==> forall j :: 0 <= j < r.value ==> users[j].email != email
    ensures r.None? ==> forall j :: 0 <= j < |users| ==> users[j].email != email
  {
    if users == [] then None
    else if users[0].email == email then Some(0)
    else
      var r := FindUserByEmail(users[1..], email);
      if r.Some? then Some(r.value + 1) else None
  }

  /** `User.findById(id)`: the user with that id; `findById(undefined)` finds nothing. */
  function FindUserById(users: seq<User>, id: Option<UserId>): (r: Option<nat>)
    ensures r.Some? ==> id.Some? && r.value < |users| && users[r.value].id == id.value
    ensures r.Some? ==> forall j :: 0 <= j < r.value ==> users[j].id != id.value
    ensures r.None? ==> id.None? || forall j :: 0 <= j < |users| ==> users[j].id != id.value
  {
    if id.None? || users == [] then None
    else if users[0].id == id.value then Some(0)
    else
      var r := FindUserById(users[1..], id);
      if r.Some? then Some(r.value + 1) else None
  }

  /**
   * One key of a query filter. Mongoose drops a key whose value is `undefined` before the
   * query is sent, so an absent request field matches every stored value; a present one
   * matches only that value.
   */
  predicate KeyMatches(stored: Option<string>, value: Option<string>)
  {
    value.None? || stored == value
  }

  /** The filter `{ email, code }` built from two request fields. */
  predicate ResetTokenMatches(t: ResetToken, email: Option<string>, code: Option<string>)
  {
    KeyMatches(Some(t.email), email) && KeyMatches(Some(t.code), code)
  }

  /** `ResetToken.findOne({ email, code })`: the first code the filter matches, or None. */
  function FindResetToken(tokens: seq<ResetToken>, email: Option<string>, code: Option<string>): (r: Option<nat>)
    ensures r.Some? ==> r.value < |tokens| && ResetTokenMatches(tokens[r.value], email, code)
    ensures r.Some? ==> forall j :: 0 <= j < r.value ==> !ResetTokenMatches(tokens[j], email, code)
    ensures r.None? ==> forall j :: 0 <= j < |tokens| ==> !ResetTokenMatches(tokens[j], email, code)
  {
    if tokens == [] then None
    else if ResetTokenMatches(tokens[0], email, code) then Some(0)
    else
      var r := FindResetToken(tokens[1..], email, code);
      if r.Some? then Some(r.value + 1) else None
  }

  /** With both fields present, a found code is exactly the one asked for. */
  lemma FullFilterIsExact(tokens: seq<ResetToken>, email: string, code: string)
    ensures var r := FindResetToken(tokens, Some(email), Some(code));
      r.Some? ==> tokens[r.value].email == email && tokens[r.value].code == code
  {
  }

  /** Without any field the filter is empty, and `findOne({})` returns the first stored code. */
  lemma EmptyFilterFindsFirst(tokens: seq<ResetToken>)
    ensures FindResetToken(tokens, None, None) == if tokens == [] then None else Some(0)
  {
  }

  /** `Token.findOne({ token: value, type: kind })`. */
  function FindToken(tokens: seq<Token>, value: string, kind: TokenKind): (r: Option<nat>)
    ensures r.Some? ==> r.value < |tokens| && tokens[r.value].value == value && tokens[r.value].kind == kind
    ensures r.Some? ==> forall j :: 0 <= j < r.value ==> !(tokens[j].value == value && tokens[j].kind == kind)
    ensures r.None? ==> forall j :: 0 <= j < |tokens| ==> !(tokens[j].value == value && tokens[j].kind == kind)
  {
    if tokens == [] then None
    else if tokens[0].value == value && tokens[0].kind == kind then Some(0)
    else
      var r := FindToken(tokens[1..], value, kind);
      if r.Some? then Some(r.value + 1) else None
  }

  /** `deleteOne` of the document at position i: everything else stays, in order. */
  function RemoveAt<T>(s: seq<T>, i: nat): (r: seq<T>)
    requires i < |s|
    ensures |r| == |s| - 1
    ensures forall j :: 0 <= j < i ==> r[j] == s[j]
    ensures forall j :: i <= j < |r| ==> r[j] == s[j + 1]
    ensures multiset(r) + multiset{s[i]} == multiset(s)
  {
    assert s == s[..i] + [s[i]] + s[i + 1..];
    s[..i] + s[i + 1..]
  }

  /** `ResetToken.deleteMany({ email })`: keeps exactly the codes issued for other spellings. */
  function DropResetTokensOf(tokens: seq<ResetToken>, email: string): (r: seq<ResetToken>)
    ensures forall t :: t in r <==> t in tokens && t.email != email
    ensures |r| <= |tokens|
  {
    if tokens == [] then []
    else
      var rest := DropResetTokensOf(tokens[1..], email);
      if tokens[0].email == email then rest else [tokens[0]] + rest
  }

  /** `Token.deleteMany({ userId, type: kind })`: keeps exactly the other users' tokens and the other kind. */
  function DropTokensOf(tokens: seq<Token>, userId: UserId, kind: TokenKind): (r: seq<Token>)
    ensures forall t :: t in r <==> t in tokens && !(t.userId == userId && t.kind == kind)
    ensures |r| <= |tokens|
  {
    if tokens == [] then []
    else
      var rest := DropTokensOf(tokens[1..], userId, kind);
      if tokens[0].userId == userId && tokens[0].kind == kind then rest else [tokens[0]] + rest
  }
}
