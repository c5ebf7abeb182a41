# Video-sharing backend: account, session and chat logic in Dafny

This project models the request logic of a small Express/MongoDB video-sharing backend: its
users, its password-reset and e-mail-verification tokens, its like and watch-history lists,
its admin dashboard routes and its user-to-admin chat. It also proves properties of that
model. Every collection becomes an in-memory store. Every external service becomes an input.

## What is modelled

- **Stores** (`stores.dfy`):
  - Each MongoDB collection the handlers change is a class holding a sequence: users, reset
    codes, typed tokens, videos and chat messages.
  - `findOne` is the first match in store order (`records.dfy`), `deleteOne` removes that
    entry, and `deleteMany` keeps the others.
  - Each store's `Valid()` records what the handlers keep true:
    - user ids and lower-cased e-mails are unique;
    - no user likes a video twice;
    - there is at most one reset code per e-mail spelling;
    - there is at most one token per user and kind.
- **Authentication gates** (`auth_gate.dfy`):
  - The bearer token is the second space-separated field of the Authorization header. The
    session verifier is an oracle that returns the decoded claim, or nothing.
  - There are three gates:
    - the live server's, which lets an admin claim through without a user lookup;
    - the middleware module's, which has no such bypass;
    - the chat router's, which attaches the claim as it is.
- **Login helpers** (`login_helpers.dfy`): the client-address precedence and normalisation,
  and the coarse location string, in both of their variants.
- **Live server handlers** (`server.dfy`), from the live half of server.js:
  - register and login with the admin shortcut;
  - forgot-password, verify-reset-code and reset-password over six-digit codes;
  - like and history;
  - the balance endpoints.
- **Alternative auth router** (`auth_router.dfy`), from routes/auth.js, over typed
  `verify`/`reset` tokens: register with a verification token, verify-email, login with the
  verification gate, forgot-password and reset-password.
- **Admin router** (`admin.dfy`):
  - like statistics, as the nested loop of the source, proved against a tally specification;
  - the YouTube URL pattern, proved equal to an independent description of the same language;
  - adding a YouTube video, the user listing and user deletion.
  - server.js mounts the router at `/api/admin` behind its session gate alone
    (`AuthGate.ServerAuth`), and the router checks no role. Any admitted caller can list,
    add and delete users, so the admin handlers take no caller.
- **Chat router** (`chat.dfy`):
  - sending to the admin and to a user;
  - the admin gate, decided by e-mail;
  - the inbox, conversation and own-history queries, each a filter followed by a timestamp
    sort that is proved sorted and a permutation.

Inputs standing for the outside world:
- password hashing `hash` and comparison `compare`;
- the session verifier `verify`;
- the geolocation answer, and the offline country table `countryOf`;
- the clock `now`, in milliseconds;
- the random reset draw `r < 900000`, and the random bytes behind hex tokens;
- whether the mail transport succeeded;
- the environment values (admin credentials, `REQUIRE_EMAIL_VERIFICATION`, `ADMIN_EMAIL`).

JavaScript `undefined` is `None`. A falsy string (`undefined` or `""`) is `!Truthy`. Mongoose drops a
filter key whose value is `undefined` before it sends the query, so a request field that is
absent from a filter matches every stored value (`Records.KeyMatches`). `findById(undefined)`
is the exception: it looks up a null id, which matches no user.

Where the code departs from what its flows evidently intend, the model follows the code:

- A forgot-password flow evidently means to answer with the same generic message whether or
  not the e-mail is registered, as routes/auth.js does. server.js answers "If that email is registered, a reset code has been
  sent." for an unknown e-mail and "Reset code sent to your email" for a known one. The two
  replies tell the cases apart, and `Server.ForgotPassword` states both.
- routes/auth.js takes `User`, `Token`, `genTokenHex` and the mailers from `../server`, which
  exports nothing. The router is modelled with the collaborators it evidently means to use.
- The admin shortcut of the live login compares with `===` against environment values. When
  `ADMIN_EMAIL` and `ADMIN_PASSWORD` are both unset, a login with neither field is an admin
  login. `Server.Login` states this as written.
- Deleting the old codes before issuing a new one evidently means to keep one live reset code
  per user. server.js deletes and stores codes under
  the e-mail as the request spelled it (`deleteMany({ email })` before any lower-casing), so
  "A@x.com" and "a@x.com" can each hold a live code for the same user.
  `Stores.OneCodePerEmail` is therefore one code per spelling, not one per user.
- The chat history filter takes the caller's e-mail from the claim. A verified claim without
  one drops that key from both terms of the filter and reads every message to or from the
  admin (`Chat.EmaillessCallerReadsAllAdminTraffic`). The backend signs such a claim itself
  when `ADMIN_EMAIL` and `ADMIN_PASSWORD` are unset: a login that sends neither field takes
  the admin shortcut, and `jwt.sign({ email, role: "admin" })` leaves the undefined e-mail
  out of the token. `Chat.UnconfiguredAdminLoginReadsAdminTraffic` links that claim to the
  admin's whole chat traffic.
- server.js lines 1-264 are commented out. Only the live second half is modelled.

## Model

| member | source | states |
|---|---|---|
| JsStrings.ToLower | server.js:349 | lower-casing keeps the length, maps each character to its lower-case form and yields a lower-case string |
| JsStrings.ToLowerFixesLower | models/User.js:22 | a stored (already lower-case) e-mail is unchanged by lower-casing, so the lower-cased lookup finds it |
| JsStrings.Split | server.js:323 | splitting always yields at least one piece and no piece contains the separator |
| JsStrings.JoinSplit | server.js:323 | joining the pieces with the separator gives back the original string |
| JsStrings.SplitWithoutSep | server.js:323 | a string without the separator splits into itself alone |
| JsStrings.SplitAtFirst | server.js:323 | the text before the first separator is the first piece and the rest splits on its own |
| JsStrings.FieldAt | server.js:323 | field k exists exactly when the split has more than k pieces, and it contains no separator |
| JsStrings.FirstField | server.js:384 | field 0 always exists and is a prefix of the input |
| Codes.DecimalString | server.js:493 | `toString()` of a natural yields digits that parse back to the number |
| Codes.DecimalLength | server.js:493 | a number between 10^k and 10^(k+1) has k+1 digits |
| Codes.ResetCode | server.js:493 | the reset code is six digits, between 100000 and 999999, and encodes 100000 + r |
| Codes.HexEncode | server.js:316-318 | two lower-case hex digits per byte |
| Codes.HexRoundTrip | server.js:316-318 | decoding the hex string gives back the bytes |
| Codes.TokenHex | server.js:316-318 | a token is 2·len hex digits that decode to the random bytes drawn |
| Records.NewUser | models/User.js:20-37 | a new user has the lower-cased e-mail, role "user", is unverified and has no likes, history, address, location or balance |
| Records.FindUserByEmail | server.js:349 | the first user with that e-mail, or None when no user has it |
| Records.FindUserById | server.js:639 | the first user with that id, or None when the id is absent or unknown |
| Records.FindResetToken | server.js:554 | the first code the filter `{ email, code }` matches, or None; an absent field matches any value |
| Records.FullFilterIsExact | server.js:554 | with both fields present, the code found has exactly that e-mail and that code |
| Records.EmptyFilterFindsFirst | server.js:554 | with both fields absent, the first stored code is found |
| Records.FindToken | routes/auth.js:44 | the first token with that value and kind, or None |
| Records.RemoveAt | server.js:558 | deleting one entry keeps the others in order, as a multiset minus that entry |
| Records.DropResetTokensOf | server.js:497 | exactly the codes of other e-mails remain |
| Records.DropTokensOf | routes/auth.js:164 | exactly the tokens not of that user and kind remain |
| Stores.DropKeepsOneCodePerEmail | server.js:497-506 | deleting all codes of an e-mail keeps at most one code per e-mail |
| Stores.DropKeepsOnePerUserAndKind | routes/auth.js:164-168 | deleting all tokens of a user and kind keeps at most one token per user and kind |
| Stores.UserStore.Add | server.js:353-354 | saving a new user appends it with a fresh id and keeps ids and e-mails unique |
| Stores.UserStore.Replace | server.js:416-418 | saving a changed user replaces that entry alone |
| Stores.UserStore.Delete | routes/admin.js:154 | deleting a user removes that entry alone |
| Stores.ResetTokenStore.DeleteAllFor | server.js:497 | every code of that e-mail spelling is deleted and the rest kept |
| Stores.ResetTokenStore.Save | server.js:500-506 | the code is appended; one code per e-mail is kept |
| Stores.ResetTokenStore.DeleteAt | server.js:558 | that code alone is deleted |
| Stores.TokenStore.DeleteAllOf | routes/auth.js:164 | every token of that user and kind is deleted and the rest kept |
| Stores.TokenStore.Create | routes/auth.js:168 | the token is appended; one token per user and kind is kept |
| Stores.TokenStore.DeleteAt | routes/auth.js:46 | that token alone is deleted |
| Stores.VideoStore.Add | routes/admin.js:89-95 | the video is appended |
| Stores.ChatStore.Add | backend/routes/chat.js:40-41 | the message is appended |
| AuthGate.BearerRoundTrip | server.js:323 | "scheme token" yields exactly the token when neither contains a space |
| AuthGate.NoSpaceNoToken | server.js:323-324 | a header without a space yields no token |
| AuthGate.ServerAuth | server.js:321-340 | no token gives "No token"; a token that fails to verify gives "Invalid token"; an admin-role claim is admitted with its e-mail; any other claim is admitted only as a stored user with that id, else "User not found" |
| AuthGate.ServerAdminNeedsNoLookup | server.js:328-331 | an admin claim is admitted whatever the user collection holds |
| AuthGate.MiddlewareAuth | middleware/authMiddleware.js:29-50 | the same token checks, no admin outcome at all, and every admitted caller is a stored user found by the claim's id |
| AuthGate.MiddlewareRefusesIdlessAdmin | middleware/authMiddleware.js:36-38 | the id-less admin claim is refused with "User not found" here, where the live gate admits it |
| AuthGate.ServerUsesStoredRecord | server.js:334-336 | a non-admin claim whose id is stored is admitted as that stored user's id, e-mail and role |
| AuthGate.MiddlewareUsesStoredRecord | middleware/authMiddleware.js:40-44 | the attached id, e-mail and role are the stored record's, not the claim's |
| AuthGate.ChatAuth | backend/routes/chat.js:19-31 | a missing or empty header gives "No token"; any other header whose token is absent or does not verify gives "Invalid token"; a header whose token verifies is admitted with the decoded claim, unchanged |
| LoginHelpers.RawClientIp | server.js:383-387 | the first forwarded address, else cf-connecting-ip, else the socket address, else req.ip |
| LoginHelpers.ForwardedChainGivesClient | server.js:384 | from a chain "client,proxies" the client's address is taken |
| LoginHelpers.ServerClientIp | server.js:389-396 | one leading "::ffff:" is removed, a loopback address becomes 8.8.8.8, and the result is never a loopback literal |
| LoginHelpers.RouterClientIp | routes/auth.js:86-95 | the same precedence, a loopback address becomes 8.8.8.8, nothing else changes |
| LoginHelpers.MappedAddressVariants | server.js:390 | a mapped "::ffff:a" is recorded as "a" by the live server and unchanged by the router |
| LoginHelpers.ServerLocation | server.js:401-408 | "Unknown" exactly when the answer has neither city nor country; otherwise "city, country" with "Unknown City"/"Unknown Country" for the missing part |
| LoginHelpers.RouterLocation | routes/auth.js:98-109 | "Unknown" exactly when the answer has no country; otherwise "city, country" with "Unknown City" for a missing city |
| LoginHelpers.CityOnlyVariants | server.js:406 | an answer with a city but no country is "city, Unknown Country" on the live server and "Unknown" on the router |
| Server.Register | server.js:344-361 | a missing field or a taken lower-cased e-mail changes nothing; otherwise exactly one unverified user with the digest and the name or "" is added |
| Server.Login | server.js:366-432 | the admin shortcut touches no store; an unknown e-mail and a wrong password both give 400 "Invalid credentials" with no change; success changes only the user's lastIp and location |
| Server.ForgotPassword | server.js:479-520 | a missing e-mail is 400 and an unknown one a 200 with no code; otherwise every code of that exact spelling is replaced by one six-digit code expiring in 15 minutes, kept even when the mail fails |
| Server.IssuedCodeIsTheOnlyOne | server.js:497-506 | right after issuing, that code is the only one its e-mail matches |
| Server.OnlyCodeOfEmail | server.js:497-506 | with one code per e-mail, two codes of the same e-mail are the same entry |
| Server.NoCodeLeftAfterDelete | server.js:612 | after its code is deleted an e-mail matches no code at all |
| Server.VerifyResetCode | server.js:550-567 | the first matching code decides: none is 400, an expired one is deleted and reported "Code expired", a live one is 200 with nothing changed; a 200 always means a live match, and with an e-mail given a live match always gives 200 |
| Server.LiveIsFirstMatch | server.js:554-557 | with one code per e-mail and the e-mail given, a live match exists exactly when the first match has not expired |
| Server.ResetPassword | server.js:594-619 | no matching code changes nothing; an expired one is deleted; a request without an e-mail is 500; an unknown user is 404 with the code kept; success needs a live match, replaces only the password digest and consumes the code, so the same request then matches nothing |
| Server.CodelessRequestFindsTheCode | server.js:554 | a request with a stored e-mail and no code finds that e-mail's code |
| Server.CodelessResetScenario | server.js:550-619 | as written, an e-mail alone passes verify-reset-code and resets a registered user's password to one the requester chose |
| Server.VerifyResetCodeChecked | server.js:550-567 | corrected: a missing e-mail or code is 400 with nothing changed; 200 exactly when the request names a live code exactly |
| Server.ResetPasswordChecked | server.js:594-619 | corrected: a missing field is 400 with nothing changed; 200 exactly when the request names a live code exactly and the user exists; the password changes only on a 200 |
| Server.FindLike | server.js:643 | the first like of that video, or None when there is none |
| Server.LikeVideo | server.js:636-653 | a video already liked leaves the likes unchanged; otherwise exactly one like is appended, or, without a video id, nothing is saved |
| Server.LikeKeepsVideosDistinct | server.js:642-649 | a like appended after `likes.find` found none names a new video, so the list still names each video once |
| Server.LikedAtMostOnce | server.js:642-649 | in a valid store, two likes of the same video in one list are the same like |
| Server.RecordHistory | server.js:656-670 | exactly one history entry is appended for the caller |
| Server.Balance | server.js:694-697 | the caller's balance, 0 when unset, and no reply when the caller has no record |
| Server.SetBalance | server.js:700-704 | only the caller's balance is overwritten |
| Server.Withdraw | server.js:707-713 | only the caller's balance becomes 0 |
| AuthRouter.Register | routes/auth.js:12-34 | a missing field or a taken e-mail changes nothing; otherwise one user and one verify token for that user expiring in an hour are created; a failed mail is 500 with both kept |
| AuthRouter.VerifyEmail | routes/auth.js:39-62 | only a verify token is accepted; a missing or expired token is 400 and the expired one is deleted; success marks the owner verified and leaves the owner no verify token |
| AuthRouter.NoTokenLeftAfterDelete | routes/auth.js:55 | with one token per user and kind, deleting it leaves that user none of that kind |
| AuthRouter.Login | routes/auth.js:72-126 | an unverified user is refused with 403 before the password is checked when verification is required; an unknown e-mail and a wrong password both give 400 "Invalid credentials"; success records address and location |
| AuthRouter.ForgotPassword | routes/auth.js:156-176 | an unknown e-mail gets the same 200 as a known one and changes nothing; a known user's reset tokens are replaced by exactly one expiring in an hour |
| AuthRouter.ResetPassword | routes/auth.js:181-204 | missing fields are 400; only a reset token is accepted; an expired one is deleted; an unknown owner is 404; success replaces the digest and leaves the owner no reset token |
| AuthRouter.KindsNotInterchangeable | routes/auth.js:44 | a value held only by tokens of one kind is never found as the other kind |
| AuthRouter.ConsumedTokenIsGone | routes/auth.js:197 | replaying a consumed token finds nothing |
| Admin.LikeIds | routes/admin.js:67-68 | the video ids of a like list, in order |
| Admin.CountPositive | routes/admin.js:68 | an id has a positive count exactly when it occurs |
| Admin.TallyCounts | routes/admin.js:64-70 | the tally's keys are exactly the ids that occur, each mapped to its number of occurrences |
| Admin.TallySum | routes/admin.js:64-72 | the counts of a tally add up to the number of ids |
| Admin.VideoStats | routes/admin.js:60-77 | each video's count is the number of likes naming it across all users, unliked videos are absent, and the counts sum to the number of likes |
| Admin.YouTubeUrlIsPattern | routes/admin.js:86-87 | every URL the check accepts is scheme + host + "/" + a non-empty one-line path |
| Admin.SplitIsAccepted | routes/admin.js:86-87 | a URL that splits as an allowed scheme, host, "/" and a non-empty one-line path is accepted |
| Admin.AcceptedBy | routes/admin.js:86-87 | scheme + host + "/" + path is accepted for every allowed scheme and host and every non-empty one-line path |
| Admin.PatternIsYouTubeUrl | routes/admin.js:86-87 | every such URL is accepted |
| Admin.YouTubeUrlMatchesPattern | routes/admin.js:86-87 | the check accepts exactly the pattern's language |
| Admin.FullLinkAccepted | routes/admin.js:86 | "https://www.youtube.com/watch?v=abc" is accepted |
| Admin.ShortLinkAccepted | routes/admin.js:86 | "youtu.be/abc" is accepted |
| Admin.BareYouTubeAccepted | routes/admin.js:86 | "http://youtube/x" is accepted |
| Admin.BareYouTubeComRefused | routes/admin.js:86 | "https://youtube.com/x" is refused |
| Admin.EmptyPathRefused | routes/admin.js:86 | "https://youtu.be/" is refused |
| Admin.UpperCaseSchemeRefused | routes/admin.js:86 | "HTTPS://youtu.be/x" is refused |
| Admin.LineBreakRefused | routes/admin.js:86 | a path with a line break is refused |
| Admin.AddYouTubeVideo | routes/admin.js:81-100 | a missing URL is refused before the pattern, a URL outside the pattern is refused, otherwise one video is added titled as given or "Untitled Video" and uploaded by "admin" |
| Admin.UserRowOf | routes/admin.js:134-142 | id, e-mail and role copied; ip is the last address or "N/A"; location is the country or "Unknown" |
| Admin.ListUsers | routes/admin.js:131-148 | one row per stored user, in store order |
| Admin.DeleteUser | routes/admin.js:152-160 | an unknown id is 404 with no change; otherwise that user alone is removed |
| Chat.AdminEmail | backend/routes/chat.js:6 | the environment value when set and non-empty, else "adminfunds@gmail.com" |
| Chat.Select | backend/routes/chat.js:57 | a filter keeps exactly the matching messages, each as often as it is stored |
| Chat.Insert | backend/routes/chat.js:57 | inserting into a sorted list keeps it sorted and adds exactly that message |
| Chat.SortedAllPairs | backend/routes/chat.js:57 | in a sorted result every earlier message is no later than every later one |
| Chat.SortByTime | backend/routes/chat.js:57 | the sorted result is ascending by timestamp and a permutation of the input |
| Chat.AdminGate | backend/routes/chat.js:53-55 | a caller passes exactly when its claimed e-mail is the admin address; others get 401 or 403 |
| Chat.AdminMessages | backend/routes/chat.js:51-63 | exactly the messages addressed to the admin, ascending by time, for the admin only |
| Chat.Conversation | backend/routes/chat.js:66-87 | exactly the messages admin→u and u→admin, ascending by time, for the admin only |
| Chat.MyMessages | backend/routes/chat.js:90-105 | exactly the caller's messages to and from the admin, ascending by time |
| Chat.BothSidesSeeTheSameConversation | backend/routes/chat.js:75-98 | a user's own history and the admin's conversation with that user hold the same messages |
| Chat.EmaillessCallerReadsAllAdminTraffic | backend/routes/chat.js:90-98 | a claim without an e-mail gets exactly the messages to or from the admin |
| Chat.UnconfiguredAdminLoginReadsAdminTraffic | server.js:371-373 | with the admin credentials unset, an empty login is an admin login, and the e-mail-less claim it signs is admitted by the chat gate and reads every message to or from the admin |
| Chat.ConversationsAreDisjoint | backend/routes/chat.js:93-98 | two different non-admin users never see each other's messages |
| Chat.AdminIsAnAddressNotARole | backend/routes/chat.js:53 | an "admin" role with another address is forbidden; the admin address with any role is admitted |
| Chat.SendToAdmin | backend/routes/chat.js:34-48 | an empty message is 400 with no change; otherwise exactly one message from the caller's e-mail to the admin is appended |
| Chat.SendToUser | backend/routes/chat.js:109-127 | non-admins are refused with no change, an empty message is 400; otherwise exactly one message from the admin to the path's e-mail is appended |
| Chat.SentMessageIsVisible | backend/routes/chat.js:40-98 | a message sent to the admin shows in the inbox, the admin's conversation with the sender and the sender's own history |

## Findings

| source | as written | input that shows it | evidently intended | confidence | as-written member | corrected member |
|---|---|---|---|---|---|---|
| server.js:550-619 | `ResetToken.findOne({ email, code })` takes both fields from the body with no presence check, and Mongoose drops the `code` key when it is undefined | POST /forgot-password `{email: victim}` by anyone; then POST /reset-password `{email: victim, newPassword: p}`, with no code, resets the victim's password to p (POST /verify-reset-code `{email: victim}` already answers 200) | both fields are required, and only a request that names the live code exactly succeeds | not executed; rests on Mongoose's documented treatment of undefined filter keys | Server.CodelessResetScenario, Server.CodelessRequestFindsTheCode | Server.ResetPasswordChecked, Server.VerifyResetCodeChecked |

## Left out

- Persistence: MongoDB and Mongoose are replaced by in-memory sequences. Write failures, the
  500 replies they cause and concurrent requests (the find-then-delete race on tokens) are
  not modelled.
- Records.FindUserById: an id that is not a well-formed ObjectId raises a CastError in the
  source. Inside both session gates the error is caught and answered 401 "Invalid token"
  (server.js:337-338, middleware/authMiddleware.js:47-48). The model treats such an id as an
  unknown one, so the gates answer 401 "User not found" instead.
- Admin.DeleteUser: the route's `:id` is a `UserId` in the model, so a malformed id cannot be
  expressed. In the source, `findByIdAndDelete` raises a CastError on one, and the route
  answers 500 with the error's message (routes/admin.js:153-158).
- Server.VerifyResetCode: "200 exactly when a live code matches" is promised only for a
  request that carries an e-mail. Without one, the filter can match codes of several
  e-mails, and the first match alone decides.
- Server.Register, Server.Login, AuthRouter.Register, AuthRouter.Login: `name`, `lastIp` and `location` are not
  paths of the user schema (models/User.js:20-37), so strict mode drops these writes in the
  source. The model performs the writes the handlers intend, and Admin.UserRowOf shows them.
- Server.SetBalance: `balance` is not a path of the user schema, so Mongoose's strict mode
  drops the write; the model performs the write the endpoint intends.
- Server.Withdraw: for the same reason the reset to 0 is dropped by the schema; the model
  performs it.
- Server.Balance: the reply is the model's stored balance; under the real schema it always
  reads as unset and therefore 0.
- Admin.VideoStats: the source tallies into a plain object, so every video id that is an
  Object.prototype property name is mis-counted. `toString`, `valueOf`, `hasOwnProperty`,
  `constructor` and the like start from an inherited function and end up as a string such as
  "function toString() { [native code] }1". An assignment to `__proto__` is ignored, so that
  key is lost. The model tallies into a map.
- Chat.SortByTime: MongoDB does not fix the order of equal timestamps; the model fixes one
  order and proves only sortedness and permutation.
- JsStrings.ToLower: lower-cases ASCII letters only; JavaScript's full Unicode case mapping is
  not modelled.
- bcrypt, JWT signing and verification, ipinfo.io, geoip-lite, randomness and the clock are
  inputs (oracles). Session tokens are represented by the claim they sign; their expiry is
  the verifier's concern.
- Mail sending (nodemailer, SendGrid) is reduced to a success flag.
- `Math.random` float arithmetic is replaced by its integer draw `r < 900000`.
- GET /api/videos, GET /api/me and GET /videos only read and return the stored lists; they
  are not modelled.
- The Cloudinary upload route and DELETE /videos/:id depend on the Cloudinary service and
  multer; they are not modelled.
- Request bodies whose fields are not strings (numbers, objects) are not modelled.
- The static file routes, the UI (public/), the unused models (models/Message.js,
  models/ChatMessage.js) and the commented-out code are not part of this model.
