# Kalle backend: a model and its proofs

Kalle is a chat backend made of services over a database, a TTL cache and a job
queue. This project models six of its components in Dafny and proves what they
are for. Each component has a model, which is one step function over the
tables, cache and queue it changes, classes whose methods change the same
stores the way the services do and are proved equal to those steps, and
theorems about all runs of the steps. The `…Requests` modules say of every
request, in the tables alone, when it succeeds, what it answers and writes, and
that it writes nothing else.

| modules | component |
|---|---|
| `Cache`, `AuthModel`, `AuthInvariant`, `AuthRevocation`, `AuthRotation`, `AuthRequests`, `AuthService`, `AuthMiddleware`, `AuthExamples` | sessions, refresh-token rotation, and revocation of stateless access tokens by cache entries that expire |
| `ChatModel`, `ChatGroups`, `ChatRequests`, `ChatCacheInterleaving` | group membership, the sender-key job log, and two caches of participant lists |
| `ChatModel`, `ChatMessages`, `ChatRequests`, `ChatDelivery`, `ChatReceipts`, `ChatUnread`, `Keyset`, `ChatPaging`, `ChatService`, `ChatExamples` | messages: sends, edits, tombstones, delivery, receipts, unread counts, history pages and offline sync |
| `PreKeyModel`, `PreKeyService` | one-time prekeys |
| `Sanitizer` | redaction of audit metadata |
| `StoryModel`, `StoryRequests`, `StoryService` | stories that live for a day, and their feed |

## How the world is modelled

- Tables are maps and sequences in class fields; the queue is a sequence that
  only grows; Redis is a key map whose entries are alive strictly before their
  deadline. All stores see one clock, in milliseconds, that never goes back.
- Every reading of the clock inside a request is a separate parameter, so time
  passes between the calls of a request. Fresh identifiers are parameters too,
  and row ids are primary keys.
- Where the database may choose (which of several rows, in which order), its
  answer is a parameter or a ghost result, constrained by what the query means;
  queries in order of a key are answered by `Keyset.Query`.
- A request is one atomic step. Where the order of queries matters there is a
  finer model or an exact statement beside it: `ChatCacheInterleaving` splits
  the cached reads and the membership changes at every call, and
  `OverlappingRefreshExact`, `StaleSearchExact`, `LateEditExact`,
  `OverlappingTakingsExact` and `OverlappingAppendExact` say when a write that
  comes late still does what was promised.
- Signatures cannot be forged; an access token is the record of its claims.
  `exp` is in whole seconds and `jti` names the token (RFC 7519, sections 4.1.4
  and 4.1.7). Serving one one-time prekey and deleting it is what section 3.3
  of the Signal X3DH specification asks of a server.

## Where the code does less than its comments say

- Receipt status is not forced forward (`MessageService.ts:616`,
  `MessageRepository.ts:440`): `UpdateExact` says when the shown status falls,
  `ShownStatusFalls` is a run.
- The list that message delivery caches is never invalidated
  (`MessageService.ts:254`, `ConversationService.ts:817`): `DeliveryExact`
  and `StaleExactly` say who decides and receives and when that is right,
  `FormerMemberReceives` is a run; `MessageEntryExact` and `BoundedStaleness`
  say the same of overlapping requests.
- "Atomically consume" is a read and a write (`KeyRepository.ts:126`):
  `OverlappingTakingsExact`, `OverlappingAppendExact`.
- A page cursor skips rows that tie with a page's last row
  (`MessageRepository.ts:307`): `HistoryWalkExact` says exactly which are lost,
  `HistoryLosesTie` is a run.
- A group may have two members when ids repeat (`ConversationService.ts:142`):
  `GroupSizeExact`.
- `removeParticipant` does not check that its target is a member
  (`ConversationService.ts:416-425`): the job log replays nevertheless.
- Single revocation may fall back to unverified claims (`AuthService.ts:722-739`):
  the run theorems assume the token is genuine, as it is after the middleware;
  `UnverifiedRevokeExact` covers the other calls, `RevokedButAccepted` is one.
- A story at its expiry instant is in no feed but can still be looked at
  (`StoryRepository.ts:184`, `StoryService.ts:541`): `LookAndFeedDisagreeExactly`.

## Model

| member | source | states |
|---|---|---|
| `AuthRevocation.ForgetfulDecidesLikePermanent` | apps/api/src/middleware/auth.ts:150-187 | After any run of registrations, logins, refreshes, revocations, revoke-alls and other cache traffic, the middleware accepts an issued token at an instant if and only if the whole second is before `exp` and no request of the run revoked it: the expiring blacklist decides like a set that forgets nothing |
| `AuthRevocation.ForgetfulDecidesLikePermanentInSteps` | apps/api/src/middleware/auth.ts:150-187 | The same when time passes between signature check and blacklist lookup: an unrevoked token is decided by its expiry alone, a revoked one is rejected at every lookup before its expiry |
| `AuthRevocation.LookupAfterExpiryAccepts` | apps/api/src/middleware/auth.ts:150-187 | The bound on that lookup is needed: a concrete run in which a revoked token, verified just before its expiry, passes a lookup at the expiry |
| `AuthRevocation.NeverAcceptedAgain` | apps/api/src/services/AuthService.ts:442-455 | A token that a refresh, revocation or revoke-all revoked is rejected at every later instant of every continuation |
| `AuthRevocation.NeverExchangedAgain` | apps/api/src/repositories/SessionRepository.ts:123-150 | A refresh token once revoked is refused as revoked in every continuation |
| `AuthRevocation.RevokeAllIsComplete` | apps/api/src/services/AuthService.ts:601-642 | After revoke-all no access token signed earlier for the user is ever accepted and no earlier refresh token is ever exchanged, though only unexpired sessions are blacklisted |
| `AuthRevocation.RevokeAllIsLocal` | apps/api/src/services/AuthService.ts:601-642 | Revoke-all leaves sessions, refresh tokens and decisions of every other user as they were |
| `AuthRotation.ExchangedAtMostOnce` | apps/api/src/services/AuthService.ts:413-504 | A refresh token is exchanged at most once in any run |
| `AuthRotation.RefreshReplacesOneLiveToken` | apps/api/src/services/AuthService.ts:413-504 | A successful refresh replaces the token by exactly one new live token of the same user and touches no other live token |
| `AuthRotation.RefreshConservesLiveTokens` | apps/api/src/services/AuthService.ts:413-504 | A successful refresh keeps the number of live refresh tokens of every user |
| `AuthRotation.RevokedSessionHasNoLiveToken` | apps/api/src/repositories/SessionRepository.ts:130-139 | In every reachable state a revoked session has no live refresh token |
| `AuthRotation.OneLiveTokenPerChain` | apps/api/src/services/AuthService.ts:413-504 | Every live refresh token descends from one login or registration, and no chain of descendants ever has two live tokens |
| `AuthRotation.FreshGrantWorks` | apps/api/src/services/AuthService.ts:660-704 | A fresh access token is accepted exactly until the whole second of signing plus its lifetime; a fresh refresh token passes the guards exactly up to its expiry |
| `AuthRotation.OverlappingRefreshExact` | apps/api/src/services/AuthService.ts:413-504 | When the writes of a refresh come after its guards, the number of live tokens is conserved if and only if the token is still live then; otherwise it grows by one |
| `AuthRotation.UnverifiedRevokeExact` | apps/api/src/services/AuthService.ts:722-739 | Called with claims that were decoded but not verified, `revokeSession` leaves the signed token rejected from then on if and only if the jti was blacklisted already, the token is past its expiry, or the TTL from the claimed `exp` still reaches the signed one |
| `AuthRotation.LateClaimsSuffice` | apps/api/src/services/AuthService.ts:554-571 | In particular claims that expire no earlier than the signed token suffice |
| `AuthInvariant.RunKeeps` | apps/api/src/services/AuthService.ts:413-642 | Over every run: sessions outlive their tokens, only revoked sessions are blacklisted and for long enough, every revoked session is blacklisted or its token expired, and a revoked session has no live refresh token |
| `AuthModel.RemainingTtl` | apps/api/src/services/AuthService.ts:787-790 | The TTL of a revocation is never negative, reaches the expiry, and overshoots it by less than a second |
| `AuthMiddleware.Authenticate` | apps/api/src/middleware/auth.ts:120-187 | A request is let through if and only if its header carries a token that is genuine, complete, unexpired and not blacklisted; the rejections for a missing header, a bad signature, expiry and revocation are given exactly then |
| `AuthMiddleware.RequestsAreDecidedRight` | apps/api/src/middleware/auth.ts:120-187 | With unforgeable signatures, after any run a request gets through if and only if its header is "Bearer " before a genuine token with subject and name, before the millisecond of its `exp`, that was never revoked |
| `AuthExamples.OverlapLeavesTwoLive` | apps/api/src/services/AuthService.ts:413-504 | A reachable overlap of two refreshes of one token that leaves its user with two live tokens |
| `AuthExamples.RevokedButAccepted` | apps/api/src/services/AuthService.ts:722-739 | A session revoked with claims naming an earlier expiry whose token is rejected at first and accepted a second later |
| `AuthRequests.LoginExact` | apps/api/src/services/AuthService.ts:297-389 | For every state: a login succeeds if and only if the address has an account and the password is right; otherwise sessions, tokens, issued tokens and cache are unchanged |
| `AuthRequests.SessionsComeFrom` | apps/api/src/services/AuthService.ts:660-704 | One step adds a session of a user only by registering a new address for the user, by a login with the right password to an address of the user, or by exchanging an unrevoked, unexpired refresh token of the user |
| `AuthRequests.TokensComeFrom` | apps/api/src/services/AuthService.ts:660-704 | The same for refresh tokens |
| `AuthRequests.RegisterExact` | apps/api/src/services/AuthService.ts:192-255 | A registration succeeds if and only if the address is new; then that account is added, else nothing is written |
| `AuthRequests.RegisterGrants` | apps/api/src/services/AuthService.ts:192-255 | The answer of a registration hands out a refresh token that was never stored and an access token of the same new session of the new account, as they are in the tables, each working exactly for its lifetime |
| `AuthRequests.LoginGrants` | apps/api/src/services/AuthService.ts:297-389 | The same of a login, for the account of the address |
| `AuthRequests.RefreshGrants` | apps/api/src/services/AuthService.ts:458-504 | The same of an exchange, for the user of the token given, which is spent and not the one handed out |
| `AuthRequests.NeverStoredBefore` | apps/api/src/services/AuthService.ts:660-704 | A refresh token that a state lacks was in no earlier state, so what is handed out is new for ever |
| `AuthRequests.RefreshExact` | apps/api/src/services/AuthService.ts:413-504 | For every state: each refusal has its exact condition, and one before the token is spent changes nothing |
| `AuthRequests.ExchangeExact` | apps/api/src/services/AuthService.ts:413-504 | In every reachable state each session and refresh token has an account, and an exchange succeeds if and only if the token is stored, unrevoked and unexpired |
| `AuthRequests.RevokeExact` | apps/api/src/services/AuthService.ts:528-582 | A revocation succeeds if and only if the session exists and is the caller’s; then exactly its row and its refresh tokens are revoked, and a live blacklist entry is left alone; else nothing is written |
| `AuthRequests.RevokeAllExact` | apps/api/src/services/AuthService.ts:601-642 | Every session and refresh token of the user is revoked and no other row changed; the count is of the sessions that were not revoked before |
| `AuthRequests.NewEntriesAreTight` | apps/api/src/services/AuthService.ts:442-455 | A new or changed blacklist entry of a step is for a session that the request retires or revokes, and lasts for the time that session has left to within a second, or the seconds to `exp` |
| `AuthRequests.EveryEntryExpires` | apps/api/src/providers/CacheProvider.ts:116-124 | In every reachable state every blacklist entry has a deadline |
| `AuthMiddleware.PresentedExact` | apps/api/src/middleware/auth.ts:123-138 | A header presents a token if and only if it is "Bearer ", with one space, before a token that is not all white space |
| `AuthService.AuthService.Register` | apps/api/src/services/AuthService.ts:192-255 | The new state and answer of the step that `AuthModel` describes, under the normalised address: duplicate refused, else account, session, access and refresh token |
| `AuthService.AuthService.Login` | apps/api/src/services/AuthService.ts:297-389 | Likewise for login; unknown address and wrong password give the same answer and change no table |
| `AuthService.AuthService.OpenSession` | apps/api/src/services/AuthService.ts:660-704 | A token pair with its session row and refresh-token row, each expiry from its own clock reading |
| `AuthService.AuthService.Refresh` | apps/api/src/services/AuthService.ts:413-504 | Likewise for refresh: guards in order, old token and session retired, then a new pair, or an error when the user is gone |
| `AuthService.AuthService.RetireSession` | apps/api/src/services/AuthService.ts:435-455 | The search loop retires exactly the active session with the refresh token’s session id, if there is one, and blacklists it for the time it has left |
| `AuthService.AuthService.RevokeSession` | apps/api/src/services/AuthService.ts:528-582 | Likewise for the revocation of one session; a string that is no token changes nothing |
| `AuthService.AuthService.BlacklistRows` | apps/api/src/services/AuthService.ts:609-624 | The loop blacklists every row for the time it has left at its own instant, and writes nothing for rows with none |
| `AuthService.AuthService.RevokeAllSessions` | apps/api/src/services/AuthService.ts:601-642 | Likewise for revoke-all, with the number of sessions newly revoked |
| `AuthService.SessionRepository.FindActiveSessionsByUserId` | apps/api/src/repositories/SessionRepository.ts:78-88 | Exactly the unrevoked, unexpired sessions of the user, each once |
| `Cache.RenderInjective` | apps/api/src/services/MessageService.ts:254 | The three families of Redis keys never collide |
| `Cache.WritesAgree` | apps/api/src/providers/CacheProvider.ts:116-136 | A write or removal changes what its own key holds and no other |
| `Cache.ReadsExact` | apps/api/src/providers/CacheProvider.ts:86-136 | What is written is read until exactly its TTL has passed, for ever when the TTL is absent, zero or negative, and not after a removal; reads of other keys are as before |
| `Cache.CacheProvider.Get` | apps/api/src/providers/CacheProvider.ts:86-100 | A live entry is answered, an expired or absent one is not |
| `Cache.CacheProvider.Set` | apps/api/src/providers/CacheProvider.ts:116-124 | A positive TTL sets a deadline; an absent, zero or negative one stores for ever |
| `Cache.CacheProvider.Has` | apps/api/src/providers/CacheProvider.ts:149-152 | True if and only if a live entry exists |
| `AuthService.AuthService.BlacklistUnlessPresent` | apps/api/src/services/AuthService.ts:549-567 | Nothing is written when a live entry is there; else an entry for the seconds from the clock to `exp`, if any are left |
| `ChatGroups.JobLogReplays` | apps/api/src/services/ConversationService.ts:216-436 | For every group of every reachable state, folding its sender-key jobs in order gives exactly its participants, even with removals of users who are no members |
| `ChatGroups.ServedIdsAreExact` | apps/api/src/services/ConversationService.ts:671-686 | With atomic requests `getParticipantIds` answers exactly the membership, each member once, whether from the cache or the tables |
| `ChatGroups.DirectIsUnique` | apps/api/src/services/ConversationService.ts:129-212 | In every reachable state two users share at most one direct conversation, whose members are exactly they, neither an administrator |
| `ChatGroups.DirectIsForEver` | apps/api/src/services/ConversationService.ts:746-753 | A direct conversation keeps its kind and its two members over every run |
| `ChatGroups.StaleSearchExact` | apps/api/src/repositories/ConversationRepository.ts:352-395 | When the search for an existing direct conversation is out of date by the time of the insertion, uniqueness is kept if and only if there is still none |
| `ChatGroups.GroupSizeExact` | apps/api/src/services/ConversationService.ts:142-157 | A new group has at least three members if and only if the list names two different users besides the creator: the guard counts repeated ids |
| `ChatGroups.RepeatedIdMakesGroupOfTwo` | apps/api/src/services/ConversationService.ts:142-157 | A concrete group of two that the guard lets through |
| `ChatGroups.MembershipChanges` | apps/api/src/services/ConversationService.ts:313-505 | One step changes a membership only by founding, by an administrator of the group (addition, role, removal), by the member leaving, or by the member’s own reading, and only in that way |
| `ChatGroups.AdminlessOnlyShrinks` | apps/api/src/services/ConversationService.ts:765-780 | Over every run a conversation without administrator never gets a member or an administrator again |
| `ChatGroups.RunKeeps` | apps/api/src/services/ConversationService.ts:123-505 | Over every run: job logs replay to the members, the service’s cache is exact, direct conversations are pairs of plain members and unique |
| `ChatRequests.CreateDirectExact` | apps/api/src/services/ConversationService.ts:123-225 | A direct conversation is made if and only if one other user is named, not oneself, and both are known; when the search finds one, that one’s id is answered and nothing is written; each refusal has its exact condition |
| `ChatRequests.CreateGroupExact` | apps/api/src/services/ConversationService.ts:123-225 | A group is made if and only if two ids or more are named and all users are known: each once, the creator alone as administrator, one job that lists every member once |
| `ChatRequests.RepeatedCreationAnswersFirst` | apps/api/src/services/ConversationService.ts:164-175 | In every continuation, either of two users who share a direct conversation and ask for one again is answered that very conversation, and nothing is written |
| `ChatRequests.AddExact` | apps/api/src/services/ConversationService.ts:313-381 | An addition succeeds if and only if an administrator of the group adds a known user who is no member; then exactly that membership is written with its role, the service’s cached list goes and one job comes |
| `ChatRequests.RemoveExact` | apps/api/src/services/ConversationService.ts:407-447 | A removal succeeds if and only if the conversation is a group and the caller removes themselves or is an administrator; then exactly that membership is gone, with the cached list, and one job comes |
| `ChatRequests.SetRoleExact` | apps/api/src/services/ConversationService.ts:468-505 | A role change succeeds if and only if an administrator changes a member, whose reading time and all else stay |
| `ChatRequests.RunKeepsUsers` | apps/api/src/services/ConversationService.ts:178-187 | In every reachable state every member of a conversation is a known user |
| `ChatCacheInterleaving.BoundedStaleness` | apps/api/src/services/MessageService.ts:251-264 | With cache lookup, table read, cache write, membership write and cache deletion as separate steps, every list served from either cache was the membership at some past instant, at most 300 s back plus the age its reading had when stored |
| `ChatCacheInterleaving.FormerMemberIsForgotten` | apps/api/src/services/MessageService.ts:251-264 | A user who was no member throughout that time is in no served list |
| `ChatCacheInterleaving.ServiceEntryExact` | apps/api/src/services/ConversationService.ts:814-819 | An entry of the service’s cache holds the newest membership if and only if no membership was written between its reading and its storing and no writer of a later one has its deletion still to come |
| `ChatCacheInterleaving.MessageEntryExact` | apps/api/src/services/MessageService.ts:251-264 | A list cached for delivery lists the newest membership if and only if that equals the membership it was read from, whether or not changes are finished |
| `ChatCacheInterleaving.MessageEntryOverRun` | apps/api/src/services/MessageService.ts:251-264 | Over any interleaving in which nothing is stored for it, however many membership changes begin and finish, the list cached for delivery stays as it is |
| `ChatCacheInterleaving.ChangesMakeItStale` | apps/api/src/services/MessageService.ts:251-264 | So a list that was current is current afterwards if and only if there is no net change |
| `ChatCacheInterleaving.RacyFillServesFormerMember` | apps/api/src/services/ConversationService.ts:671-686 | A concrete interleaving that leaves a removed member in the service’s cache with no change in progress |
| `ChatCacheInterleaving.DeliveryListKeepsFormerMember` | apps/api/src/services/MessageService.ts:251-264 | A concrete run, without any overlap of a reading, in which delivery still lists a removed member 299 998 ms later |
| `ChatCacheInterleaving.RunKeeps` | apps/api/src/services/ConversationService.ts:671-819 | The invariant behind these: provenance of every cached list, reading in progress and served list, over every interleaving |
| `ChatMessages.RowChanges` | apps/api/src/services/MessageService.ts:395-511 | One step changes a stored message only by its sender’s edit of an undeleted row checked within 15 minutes, or by its sender’s deletion, and then exactly in text, edit mark and edit time, or text, deletion mark and deletion time; a new row holds, field by field, what a member just sent |
| `ChatMessages.TombstonesAreAbsorbing` | apps/api/src/repositories/MessageRepository.ts:219-264 | Over every run rows never disappear, their conversation, sender, client id and time never change, and a deleted row never changes at all |
| `ChatMessages.DeletedIsNoText` | apps/api/src/repositories/MessageRepository.ts:249-264 | In every reachable state a message is deleted exactly when its text is null, exactly when its deletion time is set |
| `ChatMessages.MessageIsItsHistory` | apps/api/src/services/MessageService.ts:287-511 | Over every run a message row is the summary of what happened to it: its text is that of the last edit let through, else of its send, and none once a deletion was let through; its times are those of the last edit and the first deletion |
| `ChatRequests.SendAnswersExact` | apps/api/src/services/MessageService.ts:287-373 | A send succeeds if and only if the sender is a member; a known client id is answered its row and writes nothing; a new one writes one row with the text sent, and a link-preview job if and only if the text holds a link |
| `ChatRequests.EditExact` | apps/api/src/services/MessageService.ts:395-454 | For every state: an edit is let through if and only if the message exists, is the caller’s, is not deleted and was sent at most 15 minutes before the check; then its text is the new one; else nothing is written |
| `ChatRequests.DeleteExact` | apps/api/src/services/MessageService.ts:474-511 | For every state: a deletion is let through if and only if the message exists and is the caller’s; then it has no text, is deleted, and its deletion time is that of the request unless it was deleted before; nothing else ever changes |
| `ChatRequests.DeletedForEver` | apps/api/src/services/MessageService.ts:474-511 | After a deletion that was let through the message has no text in any later state |
| `ChatRequests.LinkExact` | apps/api/src/services/MessageService.ts:101 | A text holds a link if and only if "http://" or "https://", in any case, stands somewhere before a character that is not white space |
| `ChatMessages.RetryIsIdempotent` | apps/api/src/services/MessageService.ts:301-315 | A retry with the same client id, however much later, changes nothing and answers the row stored first, if the sender is still a member |
| `ChatMessages.OneRowAndOneDelivery` | apps/api/src/services/MessageService.ts:333-370 | In every reachable state there is one row for a client id, at most one fan-out and one link-preview job for a row, and the sender is never a recipient |
| `ChatDelivery.DeliveryExact` | apps/api/src/services/MessageService.ts:251-370 | In every reachable state, with a live cached list or without: a stored message is fanned out if and only if its audience, the members when the list was last stored, has three or more, to exactly the audience without the sender; the recipients are the members if and only if nobody but the sender has joined or left since that storing, at most 300 s before; a link preview is asked for if and only if the text holds a link |
| `ChatDelivery.StaleExactly` | apps/api/src/services/MessageService.ts:251-370 | After the send that stored a list and any requests that store none, a later send that finds it alive is decided by and delivered to the members of the first send, and reaches exactly the members if and only if there is no net change but of the sender |
| `ChatDelivery.AudienceStays` | apps/api/src/services/MessageService.ts:251-264 | While no addition or removal succeeds the audience is the membership |
| `ChatDelivery.RunKeepsLists` | apps/api/src/services/MessageService.ts:251-264 | Over every run each list cached for delivery is the membership at its last storing, for 300 s from then |
| `ChatMessages.RunKeeps` | apps/api/src/services/MessageService.ts:287-511 | The invariant behind these, over every run |
| `ChatReceipts.AggregateIsMaximum` | apps/api/src/repositories/MessageRepository.ts:661-679 | The status shown is the greatest over the recipients and one that somebody has |
| `ChatReceipts.ReadImpliesDelivered` | apps/api/src/repositories/MessageRepository.ts:418-528 | Over every run "read" implies "delivered" and neither time stamp is ever cleared |
| `ChatReceipts.AggregateNeverDecreases` | apps/api/src/repositories/MessageRepository.ts:418-465 | The status shown never decreases in a run whose updates come in order |
| `ChatReceipts.UpdateExact` | apps/api/src/services/MessageService.ts:622-634 | An update keeps the shown status from falling if and only if it is at least that status, or another recipient has that status |
| `ChatReceipts.ReceiptIsItsHistory` | apps/api/src/repositories/MessageRepository.ts:418-528 | A receipt row is the summary of all its updates: last status, time of the last DELIVERED or READ, time of the last READ |
| `ChatReceipts.ComputeAggregateStatus` | apps/api/src/repositories/MessageRepository.ts:661-679 | The two passes over the statuses of one message give its aggregate status |
| `ChatRequests.StatusExact` | apps/api/src/repositories/MessageRepository.ts:418-465 | A status update succeeds if and only if message and user exist, and touches that receipt alone |
| `ChatRequests.BatchReadExact` | apps/api/src/services/MessageService.ts:650-662 | A batch read succeeds if and only if it names no message, or the user and all the messages exist; then just those receipts of the user say READ and a member’s reading time is the request’s; else nothing is written |
| `ChatUnread.UnreadIsCounter` | apps/api/src/repositories/ConversationRepository.ts:642-692 | Over every run with advancing clock the count derived from `lastReadAt` equals a counter that starts at the others’ messages on joining, adds one for each message of somebody else, and drops to zero on a batch read |
| `ChatUnread.UnreadIsCounterFromStart` | apps/api/src/repositories/ConversationRepository.ts:642-692 | The same from the empty state |
| `ChatUnread.UnreadMeans` | apps/api/src/repositories/ConversationRepository.ts:642-669 | The messages counted are those of others in the conversation sent after the last reading, or all of them before the first |
| `ChatUnread.SendExact` | apps/api/src/services/MessageService.ts:322-340 | A stored message raises another member’s count by exactly one if and only if it is sent later than that member’s last reading, and its sender’s count never |
| `Keyset.WalkExact` | apps/api/src/repositories/MessageRepository.ts:282-330 | For any table that grows while pages are read: a row after the bound is returned if and only if it ties with no page that left it out |
| `Keyset.StepsAscend` | apps/api/src/repositories/MessageRepository.ts:282-330 | What a walk returns comes in order, each row once, finished or not |
| `Keyset.StepsAreBounded` | apps/api/src/repositories/MessageRepository.ts:282-330 | A walk over a fixed set of rows, finished or not, cannot go on: all its pages but the last are full and all their rows differ |
| `Keyset.Query` | apps/api/src/repositories/MessageRepository.ts:308-313 | The query in order of key after a bound, with a limit or none: the right rows for every table, bound and limit |
| `Keyset.CutPage` | apps/api/src/repositories/MessageRepository.ts:308-330 | Asking for one row more than a page holds gives the right page and tells exactly whether rows remain |
| `Keyset.OneListing` | apps/api/src/repositories/MessageRepository.ts:282-330 | With different keys there is only one listing of the same rows |
| `ChatPaging.ChainIsWalk` | apps/api/src/repositories/MessageRepository.ts:282-330 | Asking with the cursor the last page handed on, in later and later states, is a walk in order of key, finished when a page says that nothing remains |
| `ChatPaging.HistoryWalkExact` | apps/api/src/repositories/MessageRepository.ts:282-330 | Following the cursors until none remains, while messages are sent, edited and deleted, returns a message of the start if and only if no page but the last handed on its time as cursor and left it out; newest first, each once |
| `ChatPaging.HistoryWalkComplete` | apps/api/src/repositories/MessageRepository.ts:282-330 | With different time stamps every message of the start is returned |
| `ChatPaging.HistoryPagesAreBounded` | apps/api/src/repositories/MessageRepository.ts:282-330 | However far cursors are followed, the pages hold only messages of the start, each once, and all but the last are full |
| `ChatPaging.HistoryWalkEnds` | apps/api/src/repositories/MessageRepository.ts:282-330 | Following cursors comes to an end: the pages that hand one on are no more than the messages of the start, and no more than the limit goes into them |
| `ChatPaging.UnlimitedSyncExact` | apps/api/src/repositories/MessageRepository.ts:349-371 | A client that holds everything up to T and appends an unlimited sync then holds every message exactly once in ascending order, if and only if nothing was sent later in the very millisecond T |
| `ChatPaging.SyncIsWalk` | apps/api/src/services/MessageService.ts:577-607 | Syncing again from the last time stamp, as long as pages are full, is a walk in order of time, finished when a page is short |
| `ChatPaging.SyncWalkExact` | apps/api/src/repositories/MessageRepository.ts:349-371 | Repeated bounded syncs, until a page is short, return a message of the final state if and only if no page but the last ended at its time and left it out; oldest first, each once |
| `ChatPaging.SyncWalkIsBounded` | apps/api/src/repositories/MessageRepository.ts:349-371 | However long they are repeated, every full page takes as many messages out of those there are |
| `ChatPaging.BoundedSyncIsUnlimitedSync` | apps/api/src/services/MessageService.ts:577-607 | With different time stamps and stable membership repeated bounded syncs give the very log one unlimited sync of the final state gives |
| `ChatPaging.PageMeans` | apps/api/src/repositories/MessageRepository.ts:282-330 | A page holds messages of the conversation older than cursor and `before`, each once, newest first, at most the limit; what is left out is no newer; there is more if and only if one is left out, and the cursor handed on is the last message’s time |
| `ChatPaging.SyncMeans` | apps/api/src/services/MessageService.ts:577-607 | A sync answers only messages sent after the given time in requested conversations the user is in, each once, oldest first: all of them without a limit, and with one the first that many |
| `ChatExamples.ShownStatusFalls` | apps/api/src/services/MessageService.ts:622-634 | A reachable run in which a late DELIVERED takes the shown status back from READ |
| `ChatExamples.HistoryLosesTie` | apps/api/src/repositories/MessageRepository.ts:300-330 | A reachable state and finished pages of one message that lose the second of two sent in one millisecond |
| `ChatExamples.SyncLosesTie` | apps/api/src/repositories/MessageRepository.ts:349-371 | A reachable run in which a client that holds everything up to T misses a message sent in that millisecond |
| `ChatExamples.StaleSearchMakesTwo` | apps/api/src/services/ConversationService.ts:166-212 | A reachable state in which an outdated search makes a second direct conversation of the same two users |
| `ChatExamples.FormerMemberReceives` | apps/api/src/services/MessageService.ts:251-355 | A reachable state in which a removed member is among the recipients of the next message |
| `ChatService.ConversationService.CreateConversation` | apps/api/src/services/ConversationService.ts:123-225 | The new state and answer of the step that `ChatModel` describes, with what the search for an existing direct conversation found |
| `ChatService.ConversationService.AddParticipant` | apps/api/src/services/ConversationService.ts:313-381 | Likewise for an addition: guards in order, row, cache deletion, job |
| `ChatService.ConversationService.RemoveParticipant` | apps/api/src/services/ConversationService.ts:407-447 | Likewise for a removal; the target need not be a member |
| `ChatService.ConversationService.UpdateParticipantRole` | apps/api/src/services/ConversationService.ts:468-505 | Likewise for a role change |
| `ChatService.ConversationService.GetParticipantIds` | apps/api/src/services/ConversationService.ts:671-686 | Likewise for a read through the cache |
| `ChatService.MessageService.SendMessage` | apps/api/src/services/MessageService.ts:287-373 | Likewise for a send, with what the searches found |
| `ChatService.MessageService.EditMessage` | apps/api/src/services/MessageService.ts:395-454 | Likewise for an edit |
| `ChatService.MessageService.DeleteMessage` | apps/api/src/services/MessageService.ts:474-511 | Likewise for a deletion; a second one changes nothing |
| `ChatService.MessageService.UpdateMessageStatus` | apps/api/src/services/MessageService.ts:622-634 | Likewise for a status update |
| `ChatService.MessageService.BatchMarkRead` | apps/api/src/services/MessageService.ts:650-662 | Likewise for a batch read: all receipts or none, then the reading time |
| `ChatService.MessageService.GetMessageHistory` | apps/api/src/services/MessageService.ts:529-558 | Members only; the right page for the limit, 50 by default, and a cursor exactly when rows remain |
| `ChatService.MessageService.SyncMessages` | apps/api/src/services/MessageService.ts:577-607 | Exactly the answer to the query over those requested conversations the user is in; the loop drops the others |
| `ChatService.MessageRepository.FindByConversation` | apps/api/src/repositories/MessageRepository.ts:282-330 | The query for one row more than the limit, below the earlier of cursor and `before`, gives the right page, whether rows remain, and the next cursor |
| `ChatService.BoundsAgree` | apps/api/src/repositories/MessageRepository.ts:291-305 | Asking below the earlier of two time stamps is asking for the page after the cursor among the messages before `before` |
| `ChatService.MessageRepository.UpdateStatus` | apps/api/src/repositories/MessageRepository.ts:418-465 | The upsert of one receipt: new row or status overwritten with time stamps added |
| `ChatService.MessageRepository.BatchUpdateStatus` | apps/api/src/repositories/MessageRepository.ts:483-528 | Every upsert of the list or, when one fails, none |
| `ChatService.MessageRepository.FindByClientMessageId` | apps/api/src/repositories/MessageRepository.ts:388-399 | A row with the client id if and only if there is one |
| `ChatService.ConversationRepository.FindDirectConversation` | apps/api/src/repositories/ConversationRepository.ts:352-395 | A direct conversation of the two users if and only if there is one |
| `ChatService.ConversationRepository.GetParticipantIds` | apps/api/src/repositories/ConversationRepository.ts:595-602 | Every member once |
| `ChatService.ConversationRepository.GetUnreadCounts` | apps/api/src/repositories/ConversationRepository.ts:642-669 | For each conversation of the user the number of unread messages, and no entry where there are none |
| `ChatService.MessageRepository.FindAfterTimestamp` | apps/api/src/repositories/MessageRepository.ts:349-371 | The messages of the given conversations after the time stamp, oldest first: all of them without a limit, and with one the first that many |
| `ChatService.ReadThrough` | apps/api/src/services/MessageService.ts:251-264 | The cached list if a live one is there, else the members, which are then cached for 300 s |
| `ChatService.ConversationService.FindAdministered` | apps/api/src/services/ConversationService.ts:722-780 | The first of the guards that fails: no such conversation, no group, not a participant, no administrator |
| `ChatService.CountsTell` | apps/api/src/services/ConversationService.ts:178-187 | Comparing the number of users found with the number of different ids tells whether one is missing |
| `ChatModel.Dedup` | apps/api/src/services/ConversationService.ts:155-156 | The same ids, each once |
| `PreKeyModel.ColumnsRefineLedgers` | apps/api/src/repositories/KeyRepository.ts:113-272 | Every run of the key columns is a run of a ledger with the same answers: a fetch serves the earliest deposit not taken, a consumption by id the earliest with that id, and either comes away empty only when there is none; on the ledger nothing is taken twice and fetches take ever later deposits |
| `PreKeyModel.KeysAreConserved` | apps/api/src/repositories/KeyRepository.ts:113-272 | Between two uploads, keys served and consumed plus keys remaining are keys uploaded plus keys appended, as multisets |
| `PreKeyModel.NoKeyTwice` | apps/api/src/repositories/KeyRepository.ts:113-186 | With distinct ids no id is given out twice and none given out remains |
| `PreKeyModel.FirstIsEarliest` | apps/api/src/repositories/KeyRepository.ts:167-175 | The first matching key of the column is the earliest matching deposit that is free |
| `PreKeyModel.OverlappingTakingsExact` | apps/api/src/repositories/KeyRepository.ts:126-186 | Two takings, each by fetch or by id, that both read before either writes conserve the keys if and only if one comes away empty; otherwise one key more is given out than the column loses |
| `PreKeyModel.OverlappingAppendExact` | apps/api/src/repositories/KeyRepository.ts:253-272 | Keys appended between the reading and the writing of a fetch survive if and only if the column was empty or none were appended |
| `PreKeyService.KeyRepository.FindByUserId` | apps/api/src/repositories/KeyRepository.ts:113-140 | Serves the first key if any and keeps the rest, as the model’s step |
| `PreKeyService.KeyRepository.ConsumePreKey` | apps/api/src/repositories/KeyRepository.ts:155-186 | The search loop takes the first key with the id, as the model’s step |
| `PreKeyService.EncryptionKeyService.ValidateBundle` | apps/api/src/services/EncryptionKeyService.ts:232-309 | The errors are exactly the faults of the bundle, each once; validation throws if and only if an element of the key list is missing |
| `PreKeyService.FaultlessIsUsable` | apps/api/src/services/EncryptionKeyService.ts:232-309 | A message has no fault and no missing element if and only if it says, field by field, a usable bundle |
| `PreKeyService.FaultsMean` | apps/api/src/services/EncryptionKeyService.ts:232-309 | Each fault is listed if and only if its own field of the message is missing or empty |
| `PreKeyService.EncryptionKeyService.UploadBundle` | apps/api/src/services/EncryptionKeyService.ts:113-129 | A bundle is stored if and only if the message says a usable one, with the message’s own keys, ids and signature and nobody else’s bundle changed; otherwise nothing changes, and all faults are listed unless the validation threw |
| `PreKeyService.EncryptionKeyService.FetchBundle` | apps/api/src/services/EncryptionKeyService.ts:143-165 | The bundle with its consumed key, how many remain after it, and whether these are fewer than ten |
| `PreKeyService.EncryptionKeyService.AddPreKeys` | apps/api/src/services/EncryptionKeyService.ts:178-187 | Refused when empty or without a bundle, else appended |
| `Sanitizer.NoninterferenceExact` | apps/api/src/services/AuditService.ts:274-320 | Two trees have the same redacted copy if and only if they differ only beneath sensitive keys |
| `Sanitizer.FixedPointExact` | apps/api/src/services/AuditService.ts:274-320 | A tree is its own copy if and only if every sensitive key in it holds the marker and no prototype key occurs |
| `Sanitizer.Idempotent` | apps/api/src/services/AuditService.ts:274-320 | Redacting twice is redacting once |
| `Sanitizer.ClearPathsAreKept` | apps/api/src/services/AuditService.ts:274-320 | A path without sensitive keys leads in the copy to the copy of what it leads to in the tree: every key kept, insensitive data unchanged at any depth |
| `Sanitizer.RedactedPathsEnd` | apps/api/src/services/AuditService.ts:282-285 | A path that ends at its first sensitive key leads to the marker, a longer one nowhere |
| `Sanitizer.ProtoPathsVanish` | apps/api/src/services/AuditService.ts:277-298 | A key `__proto__` leads nowhere in the copy |
| `Sanitizer.SensitiveExact` | apps/api/src/services/AuditService.ts:331-333 | A key is sensitive if and only if it is one of the listed names but for the case of its letters |
| `Sanitizer.DocumentedNamesAreSensitive` | apps/api/src/services/AuditService.ts:51-86 | Every name as documented, `accessToken` and the like with their capitals, is sensitive |
| `Sanitizer.ListedKeysHoldMarker` | apps/api/src/services/AuditService.ts:274-320 | At any depth, a field of the copy whose key is a listed name but for case holds the marker |
| `Sanitizer.SanitizeMetadata` | apps/api/src/services/AuditService.ts:274-299 | The key-by-key loop with its recursion fills exactly the redacted copy |
| `Sanitizer.SanitizeArray` | apps/api/src/services/AuditService.ts:310-320 | The element-by-element pass gives exactly the redacted copies |
| `StoryModel.FeedIsPartition` | apps/api/src/repositories/StoryRepository.ts:173-253 | In a feed each unexpired story of the contacts is in one group at one place, and nothing else is in any |
| `StoryModel.FeedIsDetermined` | apps/api/src/repositories/StoryRepository.ts:173-253 | With different creation times there is exactly one feed |
| `StoryModel.CleanupExact` | apps/api/src/services/StoryService.ts:422-441 | A cleanup removes exactly the stories with `expiresAt` not after its instant, with exactly their views, and changes no feed from that instant on |
| `StoryModel.ViewsAreUnique` | apps/api/src/repositories/StoryRepository.ts:304-337 | In every reachable state a viewer has at most one view of a story, and every view is of an existing story |
| `StoryModel.ShownForExactlyADay` | apps/api/src/services/StoryService.ts:153-175 | A story whose author does not delete it, whoever else tries, is in the feeds of its author’s contacts for exactly 24 hours from the start of its creation, over every run with cleanups |
| `StoryModel.GoneIsGone` | apps/api/src/repositories/StoryRepository.ts:173-194 | A story that is gone or expired is in no feed of any later state |
| `StoryModel.LiveStoriesStay` | apps/api/src/services/StoryService.ts:422-441 | A story whose author does not delete it, whoever else tries, stays with all its views for as long as feeds may show it |
| `StoryRequests.CreateExact` | apps/api/src/services/StoryService.ts:153-175 | A creation adds exactly one row, of its author, that expires 24 hours after the request began |
| `StoryRequests.LookExact` | apps/api/src/services/StoryService.ts:311-323 | A look succeeds if and only if the story is there and not past its expiry, and afterwards the viewer has seen it; it is answered true if and only if it is the first, and only then one view is added; each refusal has its exact condition and writes nothing |
| `StoryRequests.DeleteExact` | apps/api/src/services/StoryService.ts:379-398 | A deletion succeeds if and only if the caller is the author of a story that is there; then exactly that story and its views are gone; else nothing is written |
| `StoryRequests.StoriesComeAndGo` | apps/api/src/services/StoryService.ts:379-441 | One step removes a story only by its author’s deletion or by a cleanup at or after its expiry, adds one only by its creation, and changes none |
| `StoryRequests.ViewsComeAndGo` | apps/api/src/repositories/StoryRepository.ts:304-337 | One step adds a view only by its viewer’s first look at a live story, and removes one only with its story |
| `StoryRequests.ViewsAreTheLooks` | apps/api/src/repositories/StoryRepository.ts:304-337 | Over every run a viewer has a view of a story that is there if and only if they had one at the start or looked at it in time |
| `StoryService.StoryRepository.FindFeed` | apps/api/src/repositories/StoryRepository.ts:173-253 | Query, grouping loop, flags and sort give a feed: one group for each author with all visible stories oldest first, the unviewed flag true if and only if one has no view by the user, the latest group first |
| `StoryService.StoryRepository.GroupByAuthor` | apps/api/src/repositories/StoryRepository.ts:198-219 | The map of groups holds for each author, in order of first record, exactly that author’s records in order |
| `StoryService.SortSorts` | apps/api/src/repositories/StoryRepository.ts:249-250 | Sorting keeps every group as often as it was and puts the latest first |
| `StoryService.SortIsStable` | apps/api/src/repositories/StoryRepository.ts:249-250 | Groups of the same instant keep their order |
| `StoryService.StoryService.CreateStory` | apps/api/src/services/StoryService.ts:153-175 | The new state of the model’s step if and only if the story has its content or media URL, not blank; otherwise nothing changes |
| `StoryService.StoryService.ResolveContactIds` | apps/api/src/services/StoryService.ts:226-243 | Exactly the other participants of the user’s conversations, each once |
| `StoryService.StoryService.GetStoryFeed` | apps/api/src/services/StoryService.ts:202-216 | A feed of the contacts given, or of everybody the user shares a conversation with |
| `StoryService.StoryService.ViewStory` | apps/api/src/services/StoryService.ts:311-323 | The new state and answer of the model’s step |
| `StoryService.StoryService.DeleteStory` | apps/api/src/services/StoryService.ts:379-398 | The new state and answer of the model’s step |
| `StoryService.StoryService.CleanupExpired` | apps/api/src/services/StoryService.ts:422-441 | The new state of the model’s step and the number of stories removed |

## Left out

- AuthService.AuthService.Register: the audit entry is not modelled, nor password hashing; lower-casing and trimming of the address is a parameter.
- AuthService.AuthService.Login: the audit entries are not modelled; the password check and the normalisation of the address are parameters.
- AuthService.AuthService.OpenSession: token lifetimes are numbers of seconds; parsing them from text such as `15m` (AuthService.ts:752-776) is not modelled.
- AuthService.SessionRepository.FindActiveSessionsByUserId: the order by creation time is not modelled; no caller depends on it.
- AuthInvariant.RunKeeps: revocation events of a run carry claims this server signed, because the controller passes on the token the middleware has just let through; other claims are the subject of `UnverifiedRevokeExact`.
- ChatService.ConversationService.CreateConversation: titles, avatars, profile data and the touched `updatedAt` of a conversation are not modelled, here or in the other requests, nor are audit entries.
- ChatService.MessageService.SendMessage: message type, replies, media and link-preview data are not modelled; the unique index that rejects a second row for a client id when two sends overlap is not part of this model.
- ChatService.MessageService.GetMessageHistory: time stamps are numbers; parsing cursors from ISO strings is not modelled.
- ChatCacheInterleaving.BoundedStaleness: a membership write is any new set of members, so the guards before it and the job after it are not in the interleaved model.
- ChatUnread.UnreadIsCounter: needs a clock that advances between requests; `SendExact` says what a message in the same millisecond does.
- Sanitizer.SanitizeMetadata: an object is the list of its own keys; that assigning an object to `__proto__` also links it as prototype is not modelled.
- Sanitizer.NoninterferenceExact: lower case is modelled for the characters whose lower case is an ASCII letter; no other character can take part in a sensitive key.
- StoryService.StoryService.CreateStory: display duration and colours are not modelled, nor a story type other than the three.
- StoryService.StoryService.DeleteStory: deletion of media files from storage is not modelled.
- StoryService.StoryService.CleanupExpired: deletion of media files from storage, and their count in the result, are not modelled.
- StoryService.StoryService.ResolveContactIds: the conversations are what the query limited to 500 answers.
- Deletion of expired sessions and refresh tokens, user deletion, and cascades of the database schema are not part of this model.
- Archive and mute settings, group titles, user search, audit queries and their id-cursor paging.
- The prekey status query (KeyRepository.ts:221-239).
- WebSocket handlers, queue workers, controllers, rate limits, cryptography, storage keys and the web client.
- The statement of the repository's README that a second login ends the first session (README.md:322) is not what `login` does and is not modelled.
