# DogMap: a verified model

DogMap is a map of parks on which dog owners mark where they are walking. Its services share a
Valkey store: the Map service keeps a `presence:{user}` key that expires and an
`object:{id}:visitors` set that does not; the Profiles service owns friendships, requests and
blocks in Postgres and copies each user's friends to `friends:{user}`, which Map uses as a
privacy filter; Auth owns credentials, verification tokens and sessions. This project models
those state machines in Dafny and proves what they promise.

How the models are built:

- Every store operation and handler is a function from one state value to the next, with the
  results of the calls it makes as a parameter: a call is `Acked`, `Dropped` (an error, nothing
  done) or `Unacked` (an error reported although the command took effect). Theorems quantify
  over all such replies unless their row says error-free.
- Where the source changes things in place there is also a class with the same fields, whose
  methods make the same calls in the same order and are proved to compute those functions. The
  theorems about runs are then lemmas about the functions, and what each function does is said
  once more in terms of the state alone.
- Runs are arbitrary sequences of events from the empty state, or from any state that keeps the
  invariant. Time passes as an event; random ids, tokens and salts are arguments.

| file | what is in it |
|---|---|
| `Basics.dfy` | options, call results, counting |
| `Presence.dfy` | presence and visitor sets: conservation, exactness, bounded staleness |
| `PresenceCommands.dfy` | the same operations command by command: serialisability |
| `ValkeyStore.dfy` | visitor-set keys, and the store with one set per key |
| `Janitor.dfy` | the sweep, with any call failing |
| `MapServer.dfy` | what a caller is shown: privacy, pins, handlers |
| `FriendGraph.dfy` | friendships, requests, blocks and their transactions |
| `ProfilesServer.dfy` | handlers as atomic steps with failing calls: invariant, cache agreement, friend status |
| `ProfilesEffects.dfy` | what each RPC answers and changes, in rows, requests and blocks alone |
| `ProfilesHandlers.dfy` | the handlers as methods over store and cache |
| `FriendCalls.dfy` | the handlers interleaved at every store call: consent |
| `FriendAlone.dfy` | the same calls without interruption are the whole handlers |
| `FriendChecks.dfy` | the same: which commits break what atomic handlers keep |
| `FriendSets.dfy` | the same: when a cached set is partial, and where its members come from |
| `FriendSchedules.dfy` | schedules in which these things go wrong |
| `BlockEffect.dfy` | Profiles and Map together: a block takes effect, with atomic handlers |
| `BlockCalls.dfy` | the same with handlers interleaved at every store call: exactly when it does not |
| `Poller.dfy`, `MapClient.dfy` | the web client's poller and map store |
| `Heartbeat.dfy` | poller timing against the presence time to live |
| `Base64.dfy`, `Password.dfy` | unpadded base64 (sections 3.2 and 4 of RFC 4648) and PHC strings for Argon2id (RFC 9106) |
| `AuthServer.dfy`, `AuthHandlers.dfy`, `AuthTrace.dfy` | registration, verification, log-in |
| `AuthEffects.dfy` | what each RPC answers and changes, in accounts, tokens and sessions alone |
| `VerifyCalls.dfy` | VerifyEmail interleaved at every store call: exactly when one link confirms twice |

Some promises in the source's comments do not hold of the code without a condition. The model
follows the code, shows a run in which each fails, and says exactly when it holds:

- "Present in at most one object at a time" (`map/internal/domain/valkey/valkey.go:69-70`): after a
  lapse, a mark elsewhere before a sweep leaves the old membership, and the janitor keeps it while
  the user is live (`Presence.MarkedElsewhereAfterLapse`); and a failed GET or SREM of the old
  membership is ignored (`Presence.MarkedElsewhereAfterLostRemoval`). Along a run with any calls
  failing it holds if and only if every mark that joins a set moves the user out of any other: the
  key is live and names that set, the GET is answered and the SREM takes effect
  (`Presence.AtMostOneIff`). Without failures that is: no user without presence is marked while
  another membership lingers (`Presence.AtMostOneIffSwept`).
- A request is rejected if the two are blocked, friends, or have one pending
  (`profiles/internal/app/profiles_server.go:224-225`), a block excludes friendship
  (`profiles/internal/app/profiles_server.go:367-368`), and only pending requests are resolved
  (`profiles/internal/domain/postgres/postgres.go:245-246`): true of atomic handlers, but the
  handlers check and act in separate transactions. Two requests sent crosswise are both pending
  (`FriendSchedules.CrossedSends`), an accept that has read its request still commits after a block
  (`FriendSchedules.BlockedYetFriends`) and after a decline (`FriendSchedules.ResolvedTwice`). Along
  a schedule the whole invariant holds throughout if and only if no commit acts on a check that has
  gone stale (`FriendChecks.AlwaysInvIff`), and requests are resolved once if and only if no commit
  rewrites one (`FriendChecks.AlwaysKeptIff`).
- "Map immediately stops leaking presence" after a block (`profiles/internal/app/profiles_server.go:367-368`):
  true of atomic handlers (`BlockEffect.BlockIsEffective`), but a refresh that read the friendship
  rows before the block may write them after it, when the block has returned OK
  (`FriendSchedules.SeenThoughBlocked`). Once the block has deleted a user's cached set, the other
  can come into view again without a further accept if and only if another handler still holds such
  a read (`BlockCalls.BlockLastsIff`).
- "Map never sees a partial set" (`profiles/internal/domain/valkey/valkey.go:55-56`): DEL and SADD are
  two commands. Between them a set with members is empty (`FriendSchedules.EmptyBetween`), and two
  refreshes of one user that interleave leave the union of what they read, with every call
  acknowledged and every handler at its end (`FriendSchedules.UnionOfTwo`). One refresh leaves the
  old or the new set if and only if its commands take effect together or the one that does not is
  not needed (`FriendSets.SetFriendsWholeIff`); along a schedule no write leaves a partial set if and
  only if no DEL empties a set that is to be filled and no SADD joins sets of which neither contains
  the other (`FriendSets.AlwaysWholeIff`). Nobody is in a cached set who never was a friend
  (`FriendSets.CachedOnceFriends`).
- A verification link is single-use (`auth/internal/app/auth_server.go:243-246`): its GET and DEL are
  separate commands and the result of the DEL is discarded, so overlapping requests can both confirm
  although both deletions took effect (`VerifyCalls.ConfirmedTwice`). Two requests confirm with one
  link if and only if both read it before any deletion that took effect and any expiry, and both
  account updates succeeded (`VerifyCalls.ConfirmsTwiceIff`). No account changes by it
  (`VerifyCalls.ReplayHarmless`).

## Model

| member | source | states |
|---|---|---|
| Presence.Conservation | map/internal/domain/valkey/valkey.go:71-109 | after every error-free run each live presence is backed by a membership, all visitor counts add up to live presences plus ghosts, and ghosts never exceed expiries plus NOT_VISITING calls that named another object |
| Presence.TotalCountIsMembers | map/internal/domain/valkey/valkey.go:134-141 | visitor counts of a set of objects, added up, are the memberships at those objects, counted once each |
| Presence.StepGhosts | map/internal/domain/valkey/valkey.go:88-101 | in an error-free step only an expiry or a misnamed NOT_VISITING makes a ghost, one each |
| Presence.RunBacked | map/internal/domain/valkey/valkey.go:71-86 | presence is backed by a membership at the end of every error-free run |
| Presence.AlwaysBackedIff | map/internal/domain/valkey/valkey.go:71-109 | with any calls failing: presence stays backed along a run if and only if no mark and no clearing takes the membership away and leaves the key |
| Presence.StepAtMostOneIff | map/internal/domain/valkey/valkey.go:69-86 | with any calls failing: a step keeps users in at most one set if and only if a mark that joins a set moves the user out of every other, by a live key that names it, an answered GET and an SREM that takes effect |
| Presence.AtMostOneIff | map/internal/domain/valkey/valkey.go:69-86 | the same throughout whole runs |
| Presence.AtMostOneIffSwept | map/internal/domain/valkey/valkey.go:69-74 | in error-free runs: at most one set throughout if and only if lapsed users are swept before being marked elsewhere |
| Presence.MarkedElsewhereAfterLostRemoval | map/internal/domain/valkey/valkey.go:72-74 | a run in which the SREM is lost, the mark succeeds, and a live user is in two sets that a pass keeps |
| Presence.MarkedElsewhereAfterLapse | map/internal/presence/janitor.go:82-98 | a run after which a user is in two sets and a janitor pass keeps both |
| Presence.CountsExactIff | map/internal/presence/janitor.go:65-106 | after a full pass every count equals the live users at the object if and only if no live user lingered anywhere else |
| Presence.Exactness | map/internal/presence/janitor.go:65-106 | error-free runs that sweep before marking elsewhere: one set per user, and exact counts after a pass |
| Presence.BoundedStaleness | map/internal/presence/janitor.go:44-60 | with error-free passes at most J apart and any other calls failing, a user last marked at t, in part or in whole, is in no visitor set from t + TTL + J on, whatever others do |
| Presence.MarkEffect | map/internal/domain/valkey/valkey.go:71-86 | for all replies: other users' keys and memberships stay; success is the SADD's and the SET's; a mark that succeeded set the key for a whole time to live and the membership; only the membership of the object left can go; error-free the memberships are given exactly |
| Presence.ClearEffect | map/internal/domain/valkey/valkey.go:92-109 | for all replies: other users' parts stay; a clearing that succeeded took exactly the key and that membership; after a failed SREM the key stays |
| Presence.WaitEffect | map/internal/domain/valkey/valkey.go:80-84 | a key is there exactly until its deadline, and time changes nothing else |
| Presence.SweepEffect | map/internal/presence/janitor.go:82-98 | a member goes exactly when its user has no live key, and nothing else changes; a pass does that for all |
| Presence.ClearUndoesMark | map/internal/domain/valkey/valkey.go:71-101 | marking and clearing an object leaves no presence and no membership of the user there or at the object held before, and everything else as it was |
| PresenceCommands.Serialisable | map/internal/domain/valkey/valkey.go:71-109 | every interleaving of single commands, one operation in flight per user, with failures, time passing, keys expiring at any time and janitor removals of users who have nothing in flight, ends with the keys, objects and memberships of a serial order of whole operations, expiries and removals, and with deadlines later than its by no more than the time that passed, equal if none did; an expiry is left out of the order when the user's operation in flight goes on to write or delete the key |
| PresenceCommands.SerialOrder | map/internal/domain/valkey/valkey.go:71-109 | that serial order is one of the schedule: the same operations, removals and ticks in the same order, and no expiry that was not there |
| PresenceCommands.IssueReadsOwnPart | map/internal/domain/valkey/valkey.go:71-101 | a command's effect and successor depend only on its own user's key and memberships |
| PresenceCommands.IssueLeavesOthers | map/internal/domain/valkey/valkey.go:71-101 | a command leaves every other user's key and memberships alone |
| PresenceCommands.PartsDetermine | map/internal/domain/valkey/valkey.go:36-37 | states that agree user by user, but for some slack in deadlines, agree altogether but for that; without slack they are equal |
| PresenceCommands.FinishLater | map/internal/domain/valkey/valkey.go:76-84 | time that passes in the middle of an operation puts off the deadline it sets by at most that time, and changes nothing else |
| PresenceCommands.FinishFirst | map/internal/domain/valkey/valkey.go:71-101 | issued without interruption, the commands are the whole operation |
| PresenceCommands.ExpiryInFlight | map/internal/domain/valkey/valkey.go:71-101 | a key that expires in the middle of an operation makes no difference if the operation still writes or deletes it, and otherwise is as good as expiring afterwards |
| PresenceCommands.SweepBetweenCommands | map/internal/presence/janitor.go:82-98 | a janitor removal between SADD and SET leaves presence without a membership, which no serial order does |
| PresenceCommands.ExecuteSimulates | map/internal/domain/valkey/valkey.go:71-109 | at every moment, letting what is in flight finish gives the serial state, user by user |
| VisitorKeys.IdOfKey | map/internal/presence/janitor.go:108-112 | the object id read back from a visitor-set key is the id it was made from, and the key is `object:`, the id, `:visitors` |
| VisitorKeys.KeyOfId | map/internal/presence/janitor.go:108-112 | a key is rebuilt from the id read from it if and only if it matches the scan pattern, that is, if and only if it is `object:`, some id, `:visitors` |
| ValkeyStore.StoredMembers | map/internal/domain/valkey/valkey.go:37-37 | rewriting the set at one key changes the memberships of its object and no others |
| ValkeyStore.VisitorsAtKey | map/internal/domain/valkey/valkey.go:134-153 | the set at an object's key is exactly that object's visitors |
| ValkeyStore.Store.Srem | map/internal/domain/valkey/valkey.go:103-109 | takes one member from the set at one key, if the call is applied |
| ValkeyStore.Store.MarkVisiting | map/internal/domain/valkey/valkey.go:71-86 | new state and error as specified for every outcome of its four calls, a failed lookup or removal of the old membership being ignored |
| ValkeyStore.Store.MarkNotVisiting | map/internal/domain/valkey/valkey.go:92-101 | new state and error as specified: the key stays if the removal fails |
| ValkeyStore.Store.CurrentObject | map/internal/domain/valkey/valkey.go:121-131 | the object held, "" without presence, or an error |
| ValkeyStore.Store.VisitorCount | map/internal/domain/valkey/valkey.go:134-141 | the number of members of an object, or an error |
| ValkeyStore.Store.FriendIdsHere | map/internal/domain/valkey/valkey.go:146-153 | visitors of the object that are in the caller's cached friend set, or an error |
| Janitor.VisitorSetKeys | map/internal/domain/valkey/valkey.go:192-210 | the keys of all pages, or the failing scan |
| Janitor.SweepMember | map/internal/presence/janitor.go:82-98 | removes at most this member, only without presence; if it stays without presence, a failed call about it is on record |
| Janitor.SweepSet | map/internal/presence/janitor.go:73-99 | the same for one set, going on after errors and keeping the earliest |
| Janitor.Reconcile | map/internal/presence/janitor.go:65-106 | under any errors and repeated keys: sets only shrink, nobody with presence is removed, what stays without presence is explained by a failed call, the error is the earliest, and no error means exactly a full pass |
| MapServer.NonInterference | map/internal/app/map_server.go:105-155 | two states with two friend caches that agree only on counts, on the visitors who are the caller's friends and on the caller's own presence give the same LoadMap response |
| MapServer.StrangersInterchangeable | map/internal/domain/valkey/valkey.go:143-153 | replacing a stranger by another everywhere changes nothing in the response |
| MapServer.AtMostOneVisiting | map/internal/app/map_server.go:105-155 | in a response at most one object has viewer_visiting, and it is the caller's |
| MapServer.ViewsShape | map/internal/app/map_server.go:144-154 | LoadMap answers if and only if every presence read succeeds, with one view per object in order (what a view holds is `MapServer.LoadShows`) |
| MapServer.LoadShows | map/internal/app/map_server.go:105-155 | in every answer, object by object: id, name, place and kind are the row's; visitor_count is the number of memberships of the object, for everyone and cut to 32 bits; friends here are exactly the visitors in the caller's cached set; viewer_visiting exactly if the caller's live key names the object, and never if that read failed |
| MapServer.LoadAnswersIff | map/internal/app/map_server.go:128-155 | the status of every refusal and exactly when there is an answer |
| MapServer.PinsInOrder | map/internal/app/map_server.go:244-275 | pins are the listed friends on a walk at an object with a row, filtered from the front in their order, with that object's data |
| MapServer.PinsAnswerIff | map/internal/app/map_server.go:244-275 | exactly when pins are answered: no failed presence read and no failed lookup that is needed; a missing row is skipped |
| MapServer.PinnedIff | map/internal/app/map_server.go:244-275 | a friend is pinned if and only if on a walk at an object with a row, with that row's data |
| MapServer.PinsAgreeWithMap | map/internal/app/map_server.go:226-278 | a pinned friend is among the friends LoadMap shows at that object, same place and name |
| MapServer.Server.constructor | map/internal/app/map_server.go:67-81 | a radius that is not positive becomes 5000 metres and a time to live that is not positive 900 seconds |
| MapServer.Server.ViewOf | map/internal/app/map_server.go:105-124 | the view of one object, as `MapServer.LoadShows` describes it, or an error if either read fails |
| MapServer.Server.LoadMap | map/internal/app/map_server.go:128-155 | the loop returns the response that `MapServer.LoadShows` and `MapServer.LoadAnswersIff` describe, on every path: no session, bad coordinates, failed query, failed reads, success |
| MapServer.Server.ChangeMapObjectStatus | map/internal/app/map_server.go:185-224 | response and new state on every path; an answer means the mark or clearing is in effect and viewer_visiting says which |
| MapServer.Server.FriendsPresence | map/internal/app/map_server.go:233-278 | the loop with its object cache returns exactly what the plain in-order filter-map returns |
| FriendGraph.InsertedInv | profiles/internal/domain/postgres/postgres.go:234-243 | a request between undecided strangers keeps the friend-graph invariant |
| FriendGraph.AcceptingInv | profiles/internal/domain/postgres/postgres.go:263-280 | accepting a pending request keeps it, and changes no other request |
| FriendGraph.DecliningInv | profiles/internal/domain/postgres/postgres.go:283-287 | so does declining |
| FriendGraph.UnfriendingInv | profiles/internal/domain/postgres/postgres.go:290-295 | so does removing a friendship |
| FriendGraph.BlockingInv | profiles/internal/domain/postgres/postgres.go:299-325 | so does a block, which ends friendship and cancels requests both ways |
| FriendGraph.Store.FindPendingBetween | profiles/internal/domain/postgres/postgres.go:215-231 | a pending request of the two in either direction, or none exists |
| FriendGraph.Store.FriendIdsOf | profiles/internal/domain/postgres/postgres.go:335-351 | exactly the other ends of the user's rows |
| FriendGraph.Store.CreateFriendRequest | profiles/internal/domain/postgres/postgres.go:234-243 | inserts a pending row unless the id or the pending ordered pair is taken |
| FriendGraph.Store.AcceptFriendRequest | profiles/internal/domain/postgres/postgres.go:263-280 | status and both rows together or nothing |
| FriendGraph.Store.DeclineFriendRequest | profiles/internal/domain/postgres/postgres.go:283-287 | the status or nothing |
| FriendGraph.Store.RemoveFriendship | profiles/internal/domain/postgres/postgres.go:290-295 | both rows or nothing |
| FriendGraph.Store.Block | profiles/internal/domain/postgres/postgres.go:299-325 | block row, removal and cancellation together or nothing |
| FriendGraph.Store.Unblock | profiles/internal/domain/postgres/postgres.go:328-332 | the caller's own block row only |
| ProfilesServer.HandleInv | profiles/internal/app/profiles_server.go:226-407 | every RPC, with any calls failing, keeps the friend-graph invariant and readdresses or reopens no request |
| ProfilesServer.RunInv | profiles/internal/app/profiles_server.go:226-407 | over every run: friendships symmetric and irreflexive, blocks exclude friendship and pending requests, friends have none pending, at most one pending per unordered pair |
| ProfilesServer.RunKeepsRequests | profiles/internal/domain/postgres/postgres.go:246-287 | over every run no request is deleted, readdressed or resolved twice |
| ProfilesEffects.InputCodes | profiles/internal/app/profiles_server.go:226-407 | exactly who is told unauthorized or bad request, and that nothing changes then |
| ProfilesEffects.SendEffect | profiles/internal/app/profiles_server.go:236-259 | for all replies: exactly when the answer is OK, forbidden or a conflict, in terms of rows; the one change is a request pending from the caller to the target, exactly when the insert takes effect and nothing stands in its way |
| ProfilesEffects.SendThenAnswer | profiles/internal/app/profiles_server.go:255-293 | the sender's own answer to the request is forbidden and changes nothing; the target's accept makes both friends |
| ProfilesEffects.RespondEffect | profiles/internal/app/profiles_server.go:265-300 | for all replies: not found, forbidden and OK; only the addressee resolves a pending request, an accept adds exactly the two rows, a decline none |
| ProfilesEffects.RemoveEffect | profiles/internal/app/profiles_server.go:346-365 | both rows of the pair go and no other row, request or block |
| ProfilesEffects.BlockEffect | profiles/internal/app/profiles_server.go:369-388 | the block row goes from caller to target, both friendship rows go, and exactly the pair's pending requests are declined |
| ProfilesEffects.UnblockEffect | profiles/internal/app/profiles_server.go:391-407 | exactly the caller's own block row goes |
| ProfilesEffects.UnblockAfterBlock | profiles/internal/domain/postgres/postgres.go:297-332 | lifting a block does not bring friendship or requests back |
| ProfilesEffects.ListingIff | profiles/internal/app/profiles_server.go:304-343 | who is listed: friends with a profile, and pending requests by direction |
| ProfilesServer.SetFriendsExact | profiles/internal/domain/valkey/valkey.go:57-69 | a refresh that succeeds is exact; one that fails adds nobody who was not in the old or the new set, and touches nobody else |
| ProfilesServer.RefreshExact | profiles/internal/app/profiles_server.go:454-465 | the users refreshed are exact, a failure stops the loop, users not named keep their sets |
| ProfilesServer.HandleExact | profiles/internal/app/profiles_server.go:226-407 | an RPC keeps agreement for everyone it does not touch, and OK means that all participants were refreshed |
| ProfilesServer.OkLeavesExact | profiles/internal/app/profiles_server.go:293-299 | after an accept, remove or block that returned OK both participants' caches equal their rows |
| ProfilesServer.CacheAgreement | profiles/internal/app/profiles_server.go:454-465 | over every run with any failures: a cache differs from the rows only if the user took part in an RPC whose commit took effect and which failed, and was not refreshed since |
| ProfilesServer.ChecksExclusive | profiles/internal/app/profiles_server.go:427-450 | under the invariant at most one of the three checks answers |
| ProfilesServer.StatusDuality | profiles/internal/app/profiles_server.go:427-450 | in every reachable state the two sides' statuses are dual, and any order of the checks gives the same one |
| ProfilesEffects.StatusIff | profiles/internal/app/profiles_server.go:427-450 | under the invariant, from the rows: Blocked, Friends, PendingOut if and only if a request is pending from the caller, PendingIn if and only if one is pending to the caller, otherwise and to oneself no relation |
| ProfilesEffects.StatusAnyState | profiles/internal/app/profiles_server.go:427-450 | in any state: block first, then friendship, then a pending request by its direction |
| ProfilesServer.PiiMutual | profiles/internal/app/profiles_server.go:105-141 | email and phone are shown exactly to oneself and friends, mutually, and never across a block |
| ProfilesServer.ListingsAgree | profiles/internal/app/profiles_server.go:304-343 | friends, incoming and outgoing users are disjoint; outgoing for one is incoming for the other; friends list each other |
| ProfilesHandlers.FriendCache.SetFriends | profiles/internal/domain/valkey/valkey.go:57-69 | DEL and then SADD give the specified set and error for every outcome of each |
| ProfilesHandlers.Server.RefreshFriendCaches | profiles/internal/app/profiles_server.go:454-465 | the loop refreshes users in order and stops at the first error |
| ProfilesHandlers.Server.FriendStatusOf | profiles/internal/app/profiles_server.go:427-450 | the status of `ProfilesEffects.StatusIff`, or an error if a read that is reached fails |
| ProfilesHandlers.Server.SendFriendRequest | profiles/internal/app/profiles_server.go:226-260 | code and new state on every path, those of `ProfilesEffects.SendEffect` |
| ProfilesHandlers.Server.SendFriendResponse | profiles/internal/app/profiles_server.go:265-300 | code and new state on every path; only the addressee may answer |
| ProfilesHandlers.Server.RemoveFriend | profiles/internal/app/profiles_server.go:346-365 | code and new state on every path |
| ProfilesHandlers.Server.BlockUser | profiles/internal/app/profiles_server.go:369-388 | code and new state on every path |
| ProfilesHandlers.Server.UnblockUser | profiles/internal/app/profiles_server.go:391-407 | code and new state on every path |
| FriendAlone.AloneIsHandle | profiles/internal/app/profiles_server.go:226-407 | the store and cache calls of any of the five RPCs, issued without interruption and with any replies, leave the rows and the cache that the whole handler leaves |
| FriendCalls.LogTells | profiles/internal/domain/postgres/postgres.go:234-332 | rows, blocks and requests change only with the commit that the log names |
| FriendCalls.Consent | profiles/internal/app/profiles_server.go:274-293 | under every interleaving of store calls with failures, rows are symmetric and each was inserted by an accept of the addressee of a request the other sent, with no remove or block of the pair since |
| FriendCalls.NextConsistent | profiles/internal/domain/postgres/postgres.go:263-325 | each single store call keeps symmetry, consent and what handlers in flight rely on |
| FriendCalls.BlockedApartIff | profiles/internal/app/profiles_server.go:274-293 | a store call keeps blocked users apart if and only if it is not the commit of an accept between blocked users |
| FriendCalls.AlwaysApartIff | profiles/internal/app/profiles_server.go:274-293 | over every schedule from the empty service: blocked users are never friends along the way if and only if no accept commits between blocked users |
| FriendCalls.StaysUnreachable | profiles/internal/app/profiles_server.go:454-465 | a friend in no row, cached set or refresh in flight stays out of the cached set until an accept of the pair commits |
| BlockCalls.ReachableIff | profiles/internal/app/profiles_server.go:454-465 | some schedule without an accept of the pair brings the friend into the user's cached set if and only if the row is there, the set holds the friend, or a refresh in flight has read the friend |
| BlockCalls.ClearedIff | profiles/internal/domain/valkey/valkey.go:57-69 | right after a handler deleted the user's cached set, the friend can come back if and only if the row or a read of it lingers |
| BlockCalls.BlockTakesEffectIff | profiles/internal/app/profiles_server.go:369-388 | a block that ran to its end with all calls acknowledged, among any other handlers, has deleted the user's set, and from then on the other can come back without an accept still to come if and only if the row or a read of it lingered at that moment |
| BlockCalls.BlockLastsIff | profiles/internal/app/profiles_server.go:367-388 | without an accept of the pair since the block's commit: if and only if another handler held a read of the old row; if none did, the other is out of view at the end and in every continuation |
| BlockCalls.BlockIsEffectiveAtCalls | profiles/internal/app/profiles_server.go:367-388 | if no other handler held old rows at the block's two deletions, then under every later interleaving and any presence neither user is in the other's friends here or pins until an accept of the pair commits |
| FriendChecks.StepKeepsIff | profiles/internal/app/profiles_server.go:236-255 | a store call keeps the whole friend-graph invariant if and only if it is not an insert between users meanwhile blocked, befriended or with a request pending, nor an accept between users meanwhile blocked or with another request pending |
| FriendChecks.AlwaysInvIff | profiles/internal/app/profiles_server.go:226-300 | over every schedule from the empty service: the invariant of atomic handlers holds throughout if and only if no commit acts on a stale check |
| FriendChecks.AlwaysUniqueIff | profiles/internal/app/profiles_server.go:224-255 | at most one request is pending between any two users throughout if and only if none is inserted while one is pending |
| FriendChecks.CrossedWay | profiles/internal/domain/postgres/migrations/0001_init.up.sql:59-62 | such an insert is necessarily crosswise: the pending request goes the other way |
| FriendChecks.AlwaysKeptIff | profiles/internal/domain/postgres/postgres.go:263-287 | over every schedule: no request is deleted or readdressed, and none is resolved twice if and only if no accept or decline rewrites a resolved one |
| FriendSets.SetFriendsWholeIff | profiles/internal/domain/valkey/valkey.go:55-69 | with either command failing, a refresh leaves the old or the new set if and only if there is nothing to add, both or neither take effect, DEL alone finds it empty, or SADD alone finds it comparable to the new |
| FriendSets.StepWholeIff | profiles/internal/domain/valkey/valkey.go:55-69 | a write of one handler leaves a partial set if and only if it is a DEL of a set with members that is to be filled or a SADD to an incomparable set; a SADD leaves exactly what was read if and only if the set before is part of it |
| FriendSets.AlwaysWholeIff | profiles/internal/domain/valkey/valkey.go:55-69 | the same throughout whole schedules |
| FriendSets.CachedOnceFriends | profiles/internal/app/profiles_server.go:454-465 | under every interleaving with any failures, whoever is in a cached set once became a friend by consent |
| FriendSchedules.CrossedSends | profiles/internal/app/profiles_server.go:236-255 | a schedule after which a request is pending in each direction |
| FriendSchedules.BlockedYetFriends | profiles/internal/app/profiles_server.go:274-293 | a schedule after which two users are friends and blocked |
| FriendSchedules.ResolvedTwice | profiles/internal/app/profiles_server.go:274-293 | a schedule in which a request is declined and then accepted |
| FriendSchedules.SeenThoughBlocked | profiles/internal/app/profiles_server.go:454-465 | a schedule in which a block has returned OK and the blocked user then comes back into the blocker's cached set |
| FriendSchedules.EmptyBetween | profiles/internal/domain/valkey/valkey.go:57-69 | a schedule in which a set is empty although the user has a friend before and after |
| FriendSchedules.UnionOfTwo | profiles/internal/domain/valkey/valkey.go:57-69 | a schedule that ends with all handlers done and a set that joins two friends the user never had at the same time |
| BlockEffect.BlockHides | profiles/internal/app/profiles_server.go:369-388 | a block that returned OK leaves neither user in the other's rows or cache |
| BlockEffect.RunHidden | profiles/internal/app/profiles_server.go:226-407 | hidden users stay hidden through failed refreshes, unblocks and everything but an accept of the pair |
| BlockEffect.BlockIsEffective | map/internal/app/map_server.go:233-278 | with handlers as atomic steps: after BlockUser returned OK, in every continuation of both services no LoadMap response, wherever asked for, and no pins show either user to the other until an accept between them commits |
| Poller.StartEffect | frontend/src/lib/poller.ts:34-38 | start arms only what is not armed, and ticks at once if asked and nothing is in flight |
| Poller.StoppedStays | frontend/src/lib/poller.ts:39-44 | after stop no tick begins without another start, and the one in flight may settle |
| Poller.FiringEffect | frontend/src/lib/poller.ts:22-36 | a firing ticks exactly if no tick is in flight, and one that has settled makes room |
| Poller.NeverOverlap | frontend/src/lib/poller.ts:22-31 | all ticks but the one in flight are over, whatever is called |
| Poller.StartsAreRedundant | frontend/src/lib/poller.ts:34-38 | further calls of start change nothing: deleting them gives the same state, and the phase stays |
| Poller.TicksSpaced | frontend/src/lib/poller.ts:22-38 | ticks start whole intervals apart however many are skipped |
| Poller.TickGap | frontend/src/lib/poller.ts:22-38 | tick starts are at least H and at most (L / H + 1) * H apart when requests settle within L |
| Poller.FirstTick | frontend/src/lib/poller.ts:34-38 | without an immediate tick the first comes exactly one interval after the start, whatever is called meanwhile |
| Poller.SteadyBeat | frontend/src/lib/poller.ts:22-38 | requests shorter than the interval never cost a beat |
| MapClient.Interval.RunTick | frontend/src/lib/poller.ts:22-31 | a tick starts unless one is in flight |
| MapClient.Interval.Start | frontend/src/lib/poller.ts:34-38 | arms the interval once and ticks at once if asked |
| MapClient.Interval.Stop | frontend/src/lib/poller.ts:39-44 | disarms; a tick in flight goes on |
| MapClient.MapStore.Refresh | frontend/src/stores/mapStore.ts:91-113 | presence is what the server reports and the beat runs exactly when it names an object; friends' pins follow a load that succeeded if they can be fetched; a failed load changes nothing |
| MapClient.MapStore.Beat | frontend/src/stores/mapStore.ts:187-204 | a beat sends VISITING for the current object and takes over the object it is answered with, or stops beating without one |
| MapClient.UpsertReplaces | frontend/src/stores/mapStore.ts:157-161 | the updated object takes the place of the one with its id or is added; all others stay, and ids stay distinct |
| MapClient.HereFirst | frontend/src/stores/mapStore.ts:103-104 | it is the first such object |
| MapClient.HereIff | frontend/src/stores/mapStore.ts:103-104 | an object is found if and only if one says viewer_visiting, and it is one of those |
| Heartbeat.SurvivesIff | frontend/src/stores/mapStore.ts:187-204 | f failed beats in a row are survived under every latency up to L, and with a first mark up to E early, if and only if (f + 1) * H + E + L is below the time to live |
| Heartbeat.FiveFailures | map/configs/values_docker.yaml:16-16 | with 120 s and 900 s: any five failures are survived exactly when early mark and latency together stay below 180 s, six exactly below 60 s; with no early mark the gap is below (f + 2) * H |
| Heartbeat.MarksRenewed | frontend/src/config.ts:6-6 | with at most f failures in a row every successful beat comes before the one before it runs out |
| Heartbeat.Held | map/internal/domain/valkey/valkey.go:76-84 | marks renewed in time keep the user present at the object through any run of other events |
| Heartbeat.MarkIsRecent | frontend/src/stores/mapStore.ts:187-204 | after at most five failures and perhaps a beat in flight, the present is within the time to live of the last mark |
| Heartbeat.HeartbeatKeepsPresence | frontend/src/stores/mapStore.ts:168-204 | end to end: a walk begins with a mark, the poller starts some time E later and beats first one interval after that; while it runs and requests settle within L, below the interval and with E + L below 180 s, the walk is visible at every moment up to the client's present as long as no six beats in a row have failed since the mark, a beat still in flight not counted |
| Base64.DecodeEncode | auth/internal/domain/password/password.go:76-80 | decoding an encoding gives the bytes back, and an encoding holds characters of the alphabet only, so neither '$' nor a line break |
| Base64.EncodeDecode | auth/internal/domain/password/password.go:112-119 | re-encoding what was decoded gives the text back if and only if it is canonical: no line breaks and zero trailing bits |
| Base64.SplitJoin | auth/internal/domain/password/password.go:112-119 | the same for sextets: exactly the zero-tailed ones are reproduced |
| Base64.SplitDigits | auth/internal/domain/password/password.go:76-80 | every character of an encoding stands for six bits of its three bytes, high bits first, with zeros past the end, and there are as many as the bytes need |
| Base64.LastOfAlphabet | auth/internal/domain/password/password.go:76-80 | the standard alphabet, not the one for URLs |
| Base64.TestVector | auth/internal/domain/password/password.go:76-80 | a vector of section 10 of RFC 4648, without its padding |
| Password.ScanDecimal | auth/internal/domain/password/password.go:108-111 | a printed number is scanned back and the rest left, when no digit follows |
| Password.FieldsJoined | auth/internal/domain/password/password.go:99-99 | splitting fields joined by '$' gives them back when none holds one |
| Password.JoinedFields | auth/internal/domain/password/password.go:99-99 | splitting any text loses nothing and leaves no separator in a field |
| Password.DecodesIff | auth/internal/domain/password/password.go:98-121 | a string decodes if and only if it has six fields, names argon2id and version 19, and its costs, salt and key are legible |
| Password.HashDecodes | auth/internal/domain/password/password.go:69-81 | what Hash prints decodes to its costs, the salt, and the key that Argon2id derives from password, salt and those costs |
| Password.VerifyIff | auth/internal/domain/password/password.go:86-96 | any string verifies if and only if it decodes to a key that Argon2id derives from the password with its own salt, costs and length |
| Password.PhcRoundTrip | auth/internal/domain/password/password.go:69-121 | decoding what Hash prints gives exactly the costs, salt and key |
| Password.DecodedFits | auth/internal/domain/password/password.go:98-121 | whatever is decoded fits uint32, uint32 and uint8 |
| Password.PrintInjective | auth/internal/domain/password/password.go:76-80 | no two parameter sets, salts or keys share a string |
| Password.DocumentedFormat | auth/internal/domain/password/password.go:5-10 | the six fields of a hash with default costs are those the package documents |
| Password.NewHasher | auth/internal/domain/password/password.go:49-66 | no parameter is zero afterwards, given ones are kept, zero ones are the defaults, and all still fit |
| Password.VerifyHash | auth/internal/domain/password/password.go:69-96 | a hash verifies with its password, and with another only if the derived keys are equal |
| Password.SaltedDifferently | auth/internal/domain/password/password.go:68-81 | one password under two salts gives two hashes |
| AuthServer.NormaliseTwice | auth/internal/app/auth_server.go:116-118 | normalising a normalised email changes nothing |
| AuthEffects.NormaliseIgnoresCase | auth/internal/app/auth_server.go:117-117 | emails that differ in case only are one, stored without upper case |
| AuthEffects.NormaliseTrims | auth/internal/app/auth_server.go:117-117 | white space around an email does not matter |
| AuthEffects.TrimSpaceParts | auth/internal/app/auth_server.go:116-117 | trimming takes white space from both ends and nothing else |
| AuthEffects.RegisterEffect | auth/internal/app/auth_server.go:115-164 | without failures: exactly when it is incomplete, taken or OK; OK adds one unverified row and one token, otherwise nothing changes |
| AuthEffects.RetryIsTaken | auth/internal/app/auth_server.go:146-156 | after a failed profile handoff the same registration is answered as taken |
| AuthEffects.LoginEffect | auth/internal/app/auth_server.go:185-224 | without failures and when one account is named: bad credentials, not verified or OK by password and flag; OK opens exactly one session, for that account |
| AuthEffects.LoginRefused | auth/internal/app/auth_server.go:190-201 | incomplete input, and input that names no account |
| AuthEffects.LogoutEffect | auth/internal/app/auth_server.go:231-241 | for all replies: OK means that session is gone, and no other changes |
| AuthEffects.LogoutUndoesLogin | auth/internal/app/auth_server.go:185-241 | a log-in and a log-out with its token leave the state as it was |
| AuthEffects.VerifyEffect | auth/internal/app/auth_server.go:247-267 | without failures: a live link verifies exactly its account and dies, any other changes nothing |
| AuthEffects.ResendEffect | auth/internal/app/auth_server.go:273-296 | without failures: exactly a token for the unverified account under the address; for a verified or unknown one nothing; OK either way |
| AuthEffects.ResendThenVerify | auth/internal/app/auth_server.go:247-296 | the link a resend mints verifies the account |
| AuthEffects.OkMeans | auth/internal/app/auth_server.go:115-267 | whatever fails, OK means that the account, the session or the verification is there |
| AuthServer.HandleInv | auth/internal/app/auth_server.go:115-296 | every RPC and expiry, with any calls failing, keeps the account invariant and every account |
| AuthServer.LifecycleSafe | auth/internal/app/auth_server.go:115-296 | over every run: live sessions belong to verified accounts, verification is never undone, each verified account consumed a token minted for it |
| AuthServer.RegisterVerifyLogin | auth/internal/app/auth_server.go:115-267 | register, verify with the token, log in by login or normalised email: the registered id is returned, whatever happens in between as long as the token is still there when used |
| AuthServer.LoginWorks | auth/internal/app/auth_server.go:185-224 | a verified account can be logged into with what it was registered with |
| AuthServer.NoEnumeration | auth/internal/app/auth_server.go:181-205 | without the password of an account the log-in names, the answer does not depend on the accounts at all; nor does that of a resend |
| AuthTrace.SessionsEarned | auth/internal/app/auth_server.go:185-224 | over every run, each live session was opened by a log-in after its user's registration that named that account with a password deriving the registered key |
| VerifyCalls.AloneIsVerifyEmail | auth/internal/app/auth_server.go:247-267 | uninterrupted, the single calls are the whole handler: same state, same answer |
| VerifyCalls.LinkAnswersIff | auth/internal/domain/valkey/valkey.go:134-149 | under every interleaving a GET finds the user the token was minted for if and only if no deletion that took effect, no expiry and no new mint of it came since, and answers bad token if and only if it is live for nobody |
| VerifyCalls.ConfirmedIff | auth/internal/app/auth_server.go:253-266 | a handler answers OK if and only if it read a live token and its UPDATE was acknowledged |
| VerifyCalls.ConfirmsTwiceIff | auth/internal/domain/valkey/valkey.go:131-149 | for a token minted once: two handlers both answer OK if and only if both read it before any deletion that took effect and any expiry, and both UPDATEs were acknowledged |
| VerifyCalls.SingleUse | auth/internal/domain/valkey/valkey.go:110-114 | a link that ends between reads of different handlers confirms for one handler only |
| VerifyCalls.ConfirmedTwice | auth/internal/domain/valkey/valkey.go:138-147 | a schedule from the empty service in which two handlers confirm with one link although both deletions took effect |
| VerifyCalls.ReplayHarmless | auth/internal/domain/valkey/valkey.go:145-147 | under every interleaving, once a link has confirmed an account no call of any handler of that link changes any account |
| AuthHandlers.Store.InsertCredential | auth/internal/domain/postgres/postgres.go:57-70 | inserts an unverified row, refused if the id, login or email is taken |
| AuthHandlers.Store.FindByLoginOrEmail | auth/internal/domain/postgres/postgres.go:75-91 | a row that matches a non-empty login or email, or none does |
| AuthHandlers.Store.MarkEmailVerified | auth/internal/domain/postgres/postgres.go:115-121 | sets the flag of one row and nothing else |
| AuthHandlers.Store.CreateSession | auth/internal/domain/valkey/valkey.go:57-75 | a session for the user under the fresh token |
| AuthHandlers.Store.DeleteSession | auth/internal/domain/valkey/valkey.go:103-108 | that session only; an empty token is no call |
| AuthHandlers.Store.CreateVerifyToken | auth/internal/domain/valkey/valkey.go:118-129 | a token for the user, recorded as minted |
| AuthHandlers.Store.ConsumeVerifyToken | auth/internal/domain/valkey/valkey.go:134-149 | the user of a live token, deleted at best effort |
| AuthHandlers.Server.Register | auth/internal/app/auth_server.go:115-164 | response and new state on every path |
| AuthHandlers.Server.Login | auth/internal/app/auth_server.go:185-224 | response and new state on every path, the password before the verified flag |
| AuthHandlers.Server.VerifyEmail | auth/internal/app/auth_server.go:247-267 | response and new state on every path |
| AuthHandlers.Server.ResendVerification | auth/internal/app/auth_server.go:273-296 | response and new state on every path, those of `AuthEffects.ResendEffect` when nothing fails |
| AuthHandlers.Server.Logout | auth/internal/app/auth_server.go:231-241 | response and new state on every path |

## Left out

- Transport, gateways, telemetry, configuration loading, generated code, SMTP delivery and session lookup by token: plumbing. The caller arrives as an argument, `""` or `None` standing for no session; ids arrive trimmed.
- PostGIS distance and the map seeder: the objects within range are an arbitrary list. Coordinates are reals, not floating point.
- Argon2id itself, randomness and UUID minting: a function and arguments. The library panics on zero rounds or lanes; `NewHasher` rules them out for hashes the service prints, and `Verify` on a foreign string with such costs is not modelled.
- Case folding and white space beyond ASCII, `citext` collation and textual variants of UUIDs.
- Queries on map objects: the rows they return are arguments of the handlers.
- PresenceCommands.Serialisable: two operations of the same user in flight at once are outside it, as is any janitor removal of a user with an operation in flight, even as one step (`PresenceCommands.SweepBetweenCommands` shows what it breaks).
- Presence.Conservation: for runs without failed calls; with failures `Presence.AlwaysBackedIff` and `Presence.AtMostOneIff` say what is left of it.
- Presence.StepGhosts: likewise.
- Presence.Exactness: likewise.
- Janitor.Reconcile: the store is changed only by the pass while it runs, and the members of a set are visited in any order. The ticker and the default interval of the janitor are run events with the bound `Punctual`.
- AuthServer.LifecycleSafe: does not say that a registration that returned OK has a profile, nor that a retry repairs a failed handoff; each retry draws a new id. Session expiry and its sliding extension are an expiry event at any time.
- BlockEffect.BlockIsEffective: with handlers as atomic steps; `BlockCalls.BlockIsEffectiveAtCalls` is what holds when they interleave.
- VerifyCalls.ConfirmsTwiceIff: registration and resending appear as the commands that matter here, inserting a row and setting a token.
- Heartbeat.HeartbeatKeepsPresence: timers fire on time, the server's clock is not ahead of the client's, and the poller runs throughout; that the beat runs exactly while visiting does not hold at every moment, since a load in flight can restart it after polling was stopped.
- MapClient.MapStore.Refresh: single-object refreshes, `setVisiting` and the refresh poller itself are left out; the store's two awaits are one step.
- Lists that come from sets (friends here, cached friends, pending requests) carry no order; logins in listings are not modelled.
- GetMapObject (the same view as LoadMap), EditUser, pets, FindUserByLogin and CreateProfile: simple reads and writes.
- Vue components, router guards, form validation and map markers.
