/**
 * The collections the handlers change in place, one object per collection. Each keeps the
 * invariant its writers maintain: unique lower-case e-mails and unique ids for users
 * (models/User.js:22 lower-cases and indexes the e-mail), at most one live-server reset code
 * per e-mail spelling, at most one router token of each kind per user, no video liked twice.
 */
module Stores {
  import opened Wrappers
  import opened JsStrings
  import opened Records

  /** No two likes name the same video. */
  predicate DistinctVideoIds(likes: seq<Like>)
  {
    forall i, j :: 0 <= i < j < |likes| ==> likes[i].videoId != likes[j].videoId
  }

  /** No two reset codes for the same e-mail spelling. */
  predicate OneCodePerEmail(tokens: seq<ResetToken>)
  {
    forall i, j :: 0 <= i < j < |tokens| ==> tokens[i].email != tokens[j].email
  }

  /** No two tokens of the same kind for the same user. */
  predicate OnePerUserAndKind(tokens: seq<Token>)
  {
    forall i, j :: 0 <= i < j < |tokens| && tokens[i].kind == tokens[j].kind ==> tokens[i].userId != tokens[j].userId
  }

  lemma {:induction false} DropKeepsOneCodePerEmail(tokens: seq<ResetToken>, email: string)
    requires OneCodePerEmail(tokens)
    ensures OneCodePerEmail(DropResetTokensOf(tokens, email))
  {
    if tokens != [] {
      DropKeepsOneCodePerEmail(tokens[1..], email);
      var rest := DropResetTokensOf(tokens[1..], email);
      forall t | t in rest ensures t.email != tokens[0].email {
        var k :| 0 <= k < |tokens[1..]| && tokens[1..][k] == t;
        assert tokens[k + 1] == t;
      }
    }
  }

  lemma {:induction false} DropKeepsOnePerUserAndKind(tokens: seq<Token>, userId: UserId, kind: TokenKind)
    requires OnePerUserAndKind(tokens)
    ensures OnePerUserAndKind(DropTokensOf(tokens, userId, kind))
  {
    if tokens != [] {
      DropKeepsOnePerUserAndKind(tokens[1..], userId, kind);
      var rest := DropTokensOf(tokens[1..], userId, kind);
      forall t | t in rest && t.kind == tokens[0].kind ensures t.userId != tokens[0].userId {
        var k :| 0 <= k < |tokens[1..]| && tokens[1..][k] == t;
        assert tokens[k + 1] == t;
      }
    }
  }

  class UserStore {
    var users: seq<User>
    /** The id the next created user gets (ObjectIds are never reused). */
    var nextId: UserId

    ghost predicate Valid()
      reads this
    {
      && (forall i :: 0 <= i < |users| ==> users[i].id < nextId)
      && (forall i, j :: 0 <= i < j < |users| ==> users[i].id != users[j].id)
      && (forall i, j :: 0 <= i < j < |users| ==> users[i].email != users[j].email)
      && (forall i :: 0 <= i < |users| ==> IsLower(users[i].email))
      && (forall i :: 0 <= i < |users| ==> DistinctVideoIds(users[i].likes))
    }

    constructor ()
      ensures Valid() && users == [] && nextId == 0
    {
      users := [];
      nextId := 0;
    }

    /** `new User({...}).save()` for an e-mail no user has yet (after lower-casing). */
    method Add(email: string, password: string, name: string) returns (id: UserId)
      requires Valid()
      requires FindUserByEmail(users, ToLower(email)).None?
      modifies this
      ensures Valid()
      ensures id == old(nextId) && nextId == old(nextId) + 1
      ensures users == old(users) + [NewUser(id, email, password, name)]
    {
      id := nextId;
      users := users + [NewUser(id, email, password, name)];
      nextId := nextId + 1;
    }

    /** `user.save()` after changing fields other than the id, the e-mail and the like list. */
    method Replace(i: nat, u: User)
      requires Valid() && i < |users|
      requires u.id == users[i].id && u.email == users[i].email
      requires DistinctVideoIds(u.likes)
      modifies this
      ensures Valid() && nextId == old(nextId)
      ensures users == old(users)[i := u]
    {
      users := users[i := u];
    }

    /** `findByIdAndDelete` of the user at position i. */
    method Delete(i: nat)
      requires Valid() && i < |users|
      modifies this
      ensures Valid() && nextId == old(nextId)
      ensures users == RemoveAt(old(users), i)
    {
      users := RemoveAt(users, i);
    }
  }

  /** The live server's ResetToken collection. */
  class ResetTokenStore {
    var tokens: seq<ResetToken>

    /** At most one reset code per e-mail spelling: every issue first deletes the older ones. */
    ghost predicate Valid()
      reads this
    {
      OneCodePerEmail(tokens)
    }

    constructor ()
      ensures Valid() && tokens == []
    {
      tokens := [];
    }

    /** `deleteMany({ email })`. */
    method DeleteAllFor(email: string)
      requires Valid()
      modifies this
      ensures Valid()
      ensures tokens == DropResetTokensOf(old(tokens), email)
    {
      DropKeepsOneCodePerEmail(tokens, email);
      tokens := DropResetTokensOf(tokens, email);
    }

    /** `new ResetToken(t).save()` once no code for that spelling is left. */
    method Save(t: ResetToken)
      requires Valid()
      requires forall k :: 0 <= k < |tokens| ==> tokens[k].email != t.email
      modifies this
      ensures Valid()
      ensures tokens == old(tokens) + [t]
    {
      tokens := tokens + [t];
    }

    /** `deleteOne({ _id })` of the code at position i. */
    method DeleteAt(i: nat)
      requires Valid() && i < |tokens|
      modifies this
      ensures Valid()
      ensures tokens == RemoveAt(old(tokens), i)
    {
      tokens := RemoveAt(tokens, i);
    }
  }

  /** The auth router's Token collection. */
  class TokenStore {
    var tokens: seq<Token>

    /**
     * At most one token of each kind per user: a reset token is issued only after that
     * user's older ones are deleted, a verify token only for a user just created.
     */
    ghost predicate Valid()
      reads this
    {
      OnePerUserAndKind(tokens)
    }

    constructor ()
      ensures Valid() && tokens == []
    {
      tokens := [];
    }

    /** `Token.deleteMany({ userId, type: kind })`. */
    method DeleteAllOf(userId: UserId, kind: TokenKind)
      requires Valid()
      modifies this
      ensures Valid()
      ensures tokens == DropTokensOf(old(tokens), userId, kind)
    {
      DropKeepsOnePerUserAndKind(tokens, userId, kind);
      tokens := DropTokensOf(tokens, userId, kind);
    }

    /** `Token.create(t)`, once that user has no token of that kind. */
    method Create(t: Token)
      requires Valid()
      requires forall k :: 0 <= k < |tokens| ==> !(tokens[k].userId == t.userId && tokens[k].kind == t.kind)
      modifies this
      ensures Valid()
      ensures tokens == old(tokens) + [t]
    {
      tokens := tokens + [t];
    }

    /** `tokenDoc.deleteOne()` of the token at position i. */
    method DeleteAt(i: nat)
      requires Valid() && i < |tokens|
      modifies this
      ensures Valid()
      ensures tokens == RemoveAt(old(tokens), i)
    {
      tokens := RemoveAt(tokens, i);
    }
  }

  class VideoStore {
    var videos: seq<Video>

    constructor ()
      ensures videos == []
    {
      videos := [];
    }

    /** `new Video(v).save()`. */
    method Add(v: Video)
      modifies this
      ensures videos == old(videos) + [v]
    {
      videos := videos + [v];
    }
  }

  class ChatStore {
    var messages: seq<ChatMessage>

    constructor ()
      ensures messages == []
    {
      messages := [];
    }

    /** `new ChatMessage(m).save()`. */
    method Add(m: ChatMessage)
      modifies this
      ensures messages == old(messages) + [m]
    {
      messages := messages + [m];
    }
  }
}
