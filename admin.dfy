/**
 * The admin router (routes/admin.js): like statistics over all users, adding a YouTube
 * video after checking its URL, the user listing and user deletion. The router sits behind
 * the live server's gate; it does not check the caller's role itself.
 */
module Admin {
  import opened Wrappers
  import opened JsStrings
  import opened Records
  import opened Stores

  /** The video ids of a like list, in order. */
  function LikeIds(likes: seq<Like>): (ids: seq<string>)
    ensures |ids| == |likes|
    ensures forall k :: 0 <= k < |likes| ==> ids[k] == likes[k].videoId
  {
    seq(|likes|, k requires 0 <= k < |likes| => likes[k].videoId)
  }

  /** Every like entry of every user, user after user. */
  function AllLikeIds(users: seq<User>): seq<string>
  {
    if users == [] then [] else AllLikeIds(users[..|users| - 1]) + LikeIds(users[|users| - 1].likes)
  }

  /** How many entries of `ids` are `v`. */
  function Count(ids: seq<string>, v: string): nat
  {
    if ids == [] then 0 else Count(ids[..|ids| - 1], v) + (if ids[|ids| - 1] == v then 1 else 0)
  }

  lemma {:induction false} CountPositive(ids: seq<string>, v: string)
    ensures Count(ids, v) > 0 <==> v in ids
  {
    if ids != [] {
      CountPositive(ids[..|ids| - 1], v);
      assert ids == ids[..|ids| - 1] + [ids[|ids| - 1]];
    }
  }

  /** The dictionary `likeMap[id] = (likeMap[id] || 0) + 1` builds from `ids`, entry by entry. */
  function Tally(ids: seq<string>): map<string, nat>
  {
    if ids == [] then map[]
    else
      var m := Tally(ids[..|ids| - 1]);
      var v := ids[|ids| - 1];
      m[v := (if v in m then m[v] else 0) + 1]
  }

  /** A tally's keys are exactly the ids that occur, and each maps to its number of occurrences. */
  lemma {:induction false} TallyCounts(ids: seq<string>)
    ensures forall v :: v in Tally(ids) <==> v in ids
    ensures forall v :: v in Tally(ids) ==> Tally(ids)[v] == Count(ids, v)
  {
    if ids != [] {
      var prefix := ids[..|ids| - 1];
      TallyCounts(prefix);
      assert ids == prefix + [ids[|ids| - 1]];
      CountPositive(prefix, ids[|ids| - 1]);
    }
  }

  /** The sum of a dictionary's counts. */
  ghost function SumValues(m: map<string, nat>): nat
    decreases |m|
  {
    if m == map[] then 0 else var k :| k in m; m[k] + SumValues(m - {k})
  }

  /** The sum does not depend on which key is taken out first. */
  lemma {:induction false} SumValuesRemove(m: map<string, nat>, k: string)
    requires k in m
    ensures SumValues(m) == m[k] + SumValues(m - {k})
    decreases |m|
  {
    var k' :| k' in m && SumValues(m) == m[k'] + SumValues(m - {k'});
    if k' != k {
      SumValuesRemove(m - {k'}, k);
      SumValuesRemove(m - {k}, k');
      assert m - {k'} - {k} == m - {k} - {k'};
    }
  }

  /** Every occurrence is counted once: the counts of a tally add up to the number of ids. */
  lemma {:induction false} TallySum(ids: seq<string>)
    ensures SumValues(Tally(ids)) == |ids|
  {
    if ids != [] {
      var prefix := ids[..|ids| - 1];
      var v := ids[|ids| - 1];
      var m := Tally(prefix);
      var m' := Tally(ids);
      TallySum(prefix);
      assert m' == m[v := (if v in m then m[v] else 0) + 1];
      SumValuesRemove(m', v);
      assert m' - {v} == m - {v};
      if v in m {
        SumValuesRemove(m, v);
      } else {
        assert m - {v} == m;
      }
    }
  }

  lemma TallySnoc(ids: seq<string>, v: string)
    ensures Tally(ids + [v]) == Tally(ids)[v := (if v in Tally(ids) then Tally(ids)[v] else 0) + 1]
  {
    assert (ids + [v])[..|ids|] == ids;
  }

  lemma LikeIdsSnoc(likes: seq<Like>, j: nat)
    requires j < |likes|
    ensures LikeIds(likes[..j + 1]) == LikeIds(likes[..j]) + [likes[j].videoId]
  {
  }

  lemma AllLikeIdsSnoc(users: seq<User>, i: nat)
    requires i < |users|
    ensures AllLikeIds(users[..i + 1]) == AllLikeIds(users[..i]) + LikeIds(users[i].likes)
  {
    assert users[..i + 1][..i] == users[..i];
  }

  /**
   * GET /video-stats: for every video id, the number of like entries naming it across all
   * users; ids nobody liked are absent, and the counts add up to the number of likes.
   */
  method VideoStats(users: seq<User>) returns (likeMap: map<string, nat>)
    ensures forall v :: v in likeMap <==> v in AllLikeIds(users)
    ensures forall v :: v in likeMap ==> likeMap[v] == Count(AllLikeIds(users), v)
    ensures SumValues(likeMap) == |AllLikeIds(users)|
  {
    likeMap := map[];
    var i := 0;
    while i < |users|
      invariant 0 <= i <= |users|
      invariant likeMap == Tally(AllLikeIds(users[..i]))
    {
      var likes := users[i].likes;
      var done := AllLikeIds(users[..i]);
      var j := 0;
      assert done + LikeIds(likes[..0]) == done;
      while j < |likes|
        invariant 0 <= j <= |likes|
        invariant likeMap == Tally(done + LikeIds(likes[..j]))
      {
        var id := likes[j].videoId;
        LikeIdsSnoc(likes, j);
        assert done + LikeIds(likes[..j + 1]) == (done + LikeIds(likes[..j])) + [id];
        TallySnoc(done + LikeIds(likes[..j]), id);
        likeMap := likeMap[id := (if id in likeMap then likeMap[id] else 0) + 1];
        j := j + 1;
      }
      assert likes[..j] == likes;
      AllLikeIdsSnoc(users, i);
      i := i + 1;
    }
    assert users[..i] == users;
    TallyCounts(AllLikeIds(users));
    TallySum(AllLikeIds(users));
  }

  /** The characters `.` does not match in a JavaScript regular expression without the `s` flag. */
  predicate IsLineTerminator(c: char)
  {
    c == '\n' || c == '\r' || c == '\U{2028}' || c == '\U{2029}'
  }

  predicate NoLineTerminator(s: string)
  {
    forall i :: 0 <= i < |s| ==> !IsLineTerminator(s[i])
  }

  /** What is left after the optional `https?:\/\/` at the start. */
  function AfterScheme(url: string): string
  {
    if "https://" <= url then url[8..] else if "http://" <= url then url[7..] else url
  }

  /** What is left after `(www\.youtube\.com|youtu\.?be)\/`, if the host part matches. */
  function AfterHost(rest: string): Option<string>
  {
    if "www.youtube.com/" <= rest then Some(rest[16..])
    else if "youtube/" <= rest then Some(rest[8..])
    else if "youtu.be/" <= rest then Some(rest[9..])
    else None
  }

  /** `/^(https?\:\/\/)?(www\.youtube\.com|youtu\.?be)\/.+$/.test(url)`, read left to right. */
  predicate IsYouTubeUrl(url: string)
  {
    var path := AfterHost(AfterScheme(url));
    path.Some? && path.value != "" && NoLineTerminator(path.value)
  }

  /** The alternatives of `(https?:\/\/)?`. */
  predicate IsScheme(scheme: string)
  {
    scheme == "" || scheme == "http://" || scheme == "https://"
  }

  /** The alternatives of `(www\.youtube\.com|youtu\.?be)`. */
  predicate IsHost(host: string)
  {
    host == "www.youtube.com" || host == "youtube" || host == "youtu.be"
  }

  /** `url` is `scheme + host + "/" + path` for that scheme and host, with a non-empty one-line path. */
  predicate SplitsAs(url: string, scheme: string, host: string)
  {
    var prefix := scheme + host + "/";
    prefix <= url && |prefix| < |url| && NoLineTerminator(url[|prefix|..])
  }

  /** The pattern as a language: some optional scheme, one of the three hosts, "/", then a path. */
  ghost predicate MatchesPattern(url: string)
  {
    exists scheme, host :: IsScheme(scheme) && IsHost(host) && SplitsAs(url, scheme, host)
  }

  lemma PrefixThen(a: string, b: string, s: string)
    requires a <= s && b <= s[|a|..]
    ensures a + b <= s && s[|a + b|..] == s[|a|..][|b|..]
  {
  }

  lemma PrefixApart(a: string, b: string, s: string)
    requires a + b <= s
    ensures a <= s && b <= s[|a|..] && s[|a + b|..] == s[|a|..][|b|..]
  {
    assert s[..|a|] == (a + b)[..|a|] == a;
    assert s[|a|..][..|b|] == (a + b)[|a|..] == b;
  }

  /** Which optional scheme AfterScheme strips. */
  lemma SchemeOfUrl(url: string) returns (scheme: string)
    ensures IsScheme(scheme) && scheme <= url && AfterScheme(url) == url[|scheme|..]
  {
    scheme := if "https://" <= url then "https://" else if "http://" <= url then "http://" else "";
  }

  /** Which host AfterHost strips. */
  lemma HostOfRest(rest: string) returns (host: string)
    requires AfterHost(rest).Some?
    ensures IsHost(host) && host + "/" <= rest && AfterHost(rest) == Some(rest[|host| + 1..])
  {
    host := if "www.youtube.com/" <= rest then "www.youtube.com" else if "youtube/" <= rest then "youtube" else "youtu.be";
  }

  /** A scheme followed by a host is stripped as that scheme: no host starts like a scheme. */
  lemma SchemeIsStripped(url: string, scheme: string, host: string)
    requires IsScheme(scheme) && IsHost(host) && scheme + host <= url
    ensures AfterScheme(url) == url[|scheme|..]
  {
    assert url[|scheme|] == host[0];
    if scheme == "" {
      assert !("https://" <= url) && !("http://" <= url);
    } else if scheme == "http://" {
      assert url[4] == ':';
      assert !("https://" <= url);
    }
  }

  /** A host followed by "/" is stripped as that host: no host with "/" is a prefix of another. */
  lemma HostIsStripped(rest: string, host: string)
    requires IsHost(host) && host + "/" <= rest
    ensures AfterHost(rest) == Some(rest[|host| + 1..])
  {
    if host == "youtube" {
      assert rest[0] == 'y';
      assert !("www.youtube.com/" <= rest);
    } else if host == "youtu.be" {
      assert rest[0] == 'y' && rest[5] == '.';
      assert !("www.youtube.com/" <= rest) && !("youtube/" <= rest);
    }
  }

  lemma {:induction false} YouTubeUrlIsPattern(url: string)
    requires IsYouTubeUrl(url)
    ensures MatchesPattern(url)
  {
    var scheme := SchemeOfUrl(url);
    var rest := AfterScheme(url);
    var host := HostOfRest(rest);
    PrefixThen(scheme, host + "/", url);
    assert scheme + (host + "/") == scheme + host + "/";
    assert SplitsAs(url, scheme, host);
  }

  /** A URL split as some scheme, host and path is accepted. */
  lemma SplitIsAccepted(url: string, scheme: string, host: string)
    requires IsScheme(scheme) && IsHost(host) && SplitsAs(url, scheme, host)
    ensures IsYouTubeUrl(url)
  {
    assert scheme + host + "/" == scheme + (host + "/");
    PrefixApart(scheme, host + "/", url);
    PrefixApart(scheme + host, "/", url);
    SchemeIsStripped(url, scheme, host);
    HostIsStripped(url[|scheme|..], host);
  }

  lemma PatternIsYouTubeUrl(url: string)
    requires MatchesPattern(url)
    ensures IsYouTubeUrl(url)
  {
    var scheme, host :| IsScheme(scheme) && IsHost(host) && SplitsAs(url, scheme, host);
    SplitIsAccepted(url, scheme, host);
  }

  /** The left-to-right check accepts exactly the URLs of the pattern's language. */
  lemma YouTubeUrlMatchesPattern(url: string)
    ensures IsYouTubeUrl(url) <==> MatchesPattern(url)
  {
    if IsYouTubeUrl(url) {
      YouTubeUrlIsPattern(url);
    }
    if MatchesPattern(url) {
      PatternIsYouTubeUrl(url);
    }
  }

  /** Any scheme, host and non-empty one-line path put together make an accepted URL. */
  lemma AcceptedBy(scheme: string, host: string, path: string)
    requires IsScheme(scheme) && IsHost(host) && path != "" && NoLineTerminator(path)
    ensures IsYouTubeUrl(scheme + host + "/" + path)
  {
    var prefix := scheme + host + "/";
    var url := prefix + path;
    assert url[..|prefix|] == prefix && url[|prefix|..] == path;
    SplitIsAccepted(url, scheme, host);
  }

  /** A full link is accepted. */
  lemma FullLinkAccepted()
    ensures IsYouTubeUrl("https://www.youtube.com/watch?v=abc")
  {
    assert "https://www.youtube.com/watch?v=abc" == "https://" + "www.youtube.com" + "/" + "watch?v=abc";
    AcceptedBy("https://", "www.youtube.com", "watch?v=abc");
  }

  /** A short link without a scheme is accepted. */
  lemma ShortLinkAccepted()
    ensures IsYouTubeUrl("youtu.be/abc")
  {
    assert "youtu.be/abc" == "" + "youtu.be" + "/" + "abc";
    AcceptedBy("", "youtu.be", "abc");
  }

  /** The bare host "youtube" is accepted. */
  lemma BareYouTubeAccepted()
    ensures IsYouTubeUrl("http://youtube/x")
  {
    assert "http://youtube/x" == "http://" + "youtube" + "/" + "x";
    AcceptedBy("http://", "youtube", "x");
  }

  /** The host "youtube.com" without "www." is refused. */
  lemma BareYouTubeComRefused()
    ensures !IsYouTubeUrl("https://youtube.com/x")
  {
    var u := "https://youtube.com/x";
    assert "https://" <= u;
    var rest := u[8..];
    assert rest[0] == 'y' && rest[5] == 'b' && rest[7] == '.';
  }

  /** A link with nothing after the "/" is refused. */
  lemma EmptyPathRefused()
    ensures !IsYouTubeUrl("https://youtu.be/")
  {
    var u := "https://youtu.be/";
    assert "https://" <= u;
    HostIsStripped(u[8..], "youtu.be");
  }

  /** The scheme is matched case-sensitively. */
  lemma UpperCaseSchemeRefused()
    ensures !IsYouTubeUrl("HTTPS://youtu.be/x")
  {
    var u := "HTTPS://youtu.be/x";
    assert u[0] == 'H';
  }

  /** A line break in the path is refused. */
  lemma LineBreakRefused()
    ensures !IsYouTubeUrl("https://youtu.be/a\nb")
  {
    var u := "https://youtu.be/a\nb";
    assert "https://" <= u;
    HostIsStripped(u[8..], "youtu.be");
    assert u[8..][9..][1] == '\n';
  }

  /**
   * POST /videos/youtube: a missing or empty URL is refused before the pattern is tried, a
   * URL outside the pattern is refused, and otherwise one video is added with the title
   * defaulting to "Untitled Video" and the uploader "admin".
   */
  method AddYouTubeVideo(videos: VideoStore, title: Option<string>, url: Option<string>)
    returns (resp: Response)
    modifies videos
    ensures !Truthy(url) ==> resp == Response(400, "YouTube URL is required") && unchanged(videos)
    ensures Truthy(url) && !IsYouTubeUrl(url.value) ==> resp == Response(400, "Invalid YouTube URL") && unchanged(videos)
    ensures Truthy(url) && IsYouTubeUrl(url.value) ==>
      && resp == Response(200, "YouTube video added")
      && videos.videos == old(videos.videos) + [Video(Or(title, "Untitled Video"), url.value, "admin")]
  {
    if !Truthy(url) {
      return Response(400, "YouTube URL is required");
    }
    if !IsYouTubeUrl(url.value) {
      return Response(400, "Invalid YouTube URL");
    }
    videos.Add(Video(Or(title, "Untitled Video"), url.value, "admin"));
    resp := Response(200, "YouTube video added");
  }

  /** One row of GET /users. */
  datatype UserRow = UserRow(id: UserId, email: string, role: string, ip: string, location: string)

  /**
   * The row GET /users shows for one stored user: id, e-mail and role copied, the last
   * address or "N/A", and the country the offline geolocation table gives for that address
   * (`countryOf`, None when it knows none) or "Unknown".
   */
  function UserRowOf(u: User, countryOf: Option<string> -> Option<string>): (row: UserRow)
    ensures row.id == u.id && row.email == u.email && row.role == u.role
    ensures Truthy(u.lastIp) ==> row.ip == u.lastIp.value
    ensures !Truthy(u.lastIp) ==> row.ip == "N/A"
    ensures Truthy(countryOf(u.lastIp)) ==> row.location == countryOf(u.lastIp).value
    ensures !Truthy(countryOf(u.lastIp)) ==> row.location == "Unknown"
  {
    UserRow(u.id, u.email, u.role, Or(u.lastIp, "N/A"), Or(countryOf(u.lastIp), "Unknown"))
  }

  /** GET /users: one row per stored user, in store order. */
  function ListUsers(users: seq<User>, countryOf: Option<string> -> Option<string>): (rows: seq<UserRow>)
    ensures |rows| == |users|
    ensures forall i :: 0 <= i < |users| ==> rows[i] == UserRowOf(users[i], countryOf)
  {
    seq(|users|, i requires 0 <= i < |users| => UserRowOf(users[i], countryOf))
  }

  /** DELETE /users/:id: 404 when no user has that id, otherwise that user is removed. */
  method DeleteUser(users: UserStore, id: UserId) returns (resp: Response)
    requires users.Valid()
    modifies users
    ensures users.Valid() && users.nextId == old(users.nextId)
    ensures FindUserById(old(users.users), Some(id)).None? ==> resp == Response(404, "User not found") && unchanged(users)
    ensures FindUserById(old(users.users), Some(id)).Some? ==>
      resp == Response(200, "User deleted") && users.users == RemoveAt(old(users.users), FindUserById(old(users.users), Some(id)).value)
  {
    var i := FindUserById(users.users, Some(id));
    if i.None? {
      return Response(404, "User not found");
    }
    users.Delete(i.value);
    resp := Response(200, "User deleted");
  }
}
