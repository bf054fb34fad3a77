# SecureCore, modelled and proved

SecureCore is a C++ HTTP(S) server with token authentication, role-based administration, abuse
protection and proxy awareness. This project models the parts of it that are state machines, protocols
or parsers, and proves what they keep over every run and every input.

Each stateful C++ class is a Dafny class whose methods change fields in place. Every such method is
proved equal to a step of a machine on plain values (`View()`), and the theorems about runs are lemmas
about that machine. Time, random draws, the outcome of I/O, the choice of a thread to wake and the
entry `erase(begin())` hits are parameters, so the theorems hold for all of them.

| file | part of the system |
|---|---|
| `Common.dfy` | options, results, small functions of numbers and maps |
| `Strings.dfy` | searching and joining strings |
| `Schema.dfy` | the tables, the SQL statements, transactions by snapshot and rollback |
| `TokenFamilies.dfy` | the refresh-token family protocol as a machine over the tables |
| `AuthService.dfy` | session repository, authentication and account security services |
| `Administration.dfy` | role and status administration, service and command line |
| `WorkerPool.dfy` | bounded task queue, worker threads, stop |
| `ConnectionPool.dfy` | database connections, leases, waiting threads, the destructor |
| `RateLimiter.dfy` | fixed-window request limits with lazy cleanup |
| `AuthAbuse.dfy` | failure counters, exponential lockouts, pruning |
| `HttpSession.dfy` | one connection, plain or TLS, driven by callbacks |
| `HttpServer.dfy` | accept loop, connection limit, gauges, drain and stop |
| `Addresses.dfy` | CIDR membership and the walk along a proxy chain |
| `QuotedLists.dfy` | quote-aware splitting and quoting for section 4 of RFC 7239 |
| `ForwardedHeader.dfy` | the Forwarded and X-Forwarded-For parsers |
| `TrustedProxy.dfy` | who the client of a request is |
| `UriText.dfy` | percent escapes (section 2.1 of RFC 3986), paths, query parameters |
| `RoutePatterns.dfy` | compiling, matching and rendering route patterns |
| `RouteTable.dfy` | registration order and dispatch |

`dafny verify dfyconfig.toml` checks everything.

## Assumptions

- Each mutex section, strand callback and atomic update is one step; runs interleave these steps freely.
- An immediate transaction is serial with every other one, so it runs as one step. A login is a
  lookup, at times a rehash, and an insert, as separate steps.
- Two random family identifiers never coincide; token hashes may, and the unique columns then refuse them.
- The limiters read their clock in the order they take their lock.
- Strings in paths and headers are strings of octets.

## What the proofs found

- The limiter's sharp bound over any window length is `2 * max_requests - 1`, because a window opens
  at a request that itself counts; that many are possible.
- The clamp of `retry_after` to one second never acts. In `refresh` the whole-user fallback for an
  empty family, the second reuse branch and the branch for a missing owner never run. The accept
  loop's fallback for a failed registration never runs.
- The abuse protector's reported wait undershoots exactly when it exceeds whole seconds, at least one, by
  less than a millisecond, because it is cut to milliseconds first, or when it exceeds 2^32 - 1 seconds.
- Pruning an abuse entry can show after the next failure: the kept entry opened its window at a check
  before it, the pruned one at the failure itself. It shows exactly if the two differ and the failure
  falls within the earlier window, and a single failure does not lock.
- A login that looked its user up before a disable and inserts after it leaves the disabled user a live
  session. The session does not authenticate while the account stays disabled.
- In the same way a login from before a password change can end with a live session after it, and its
  rehash can put the old password back. A changed password stays exactly if no login under way at the
  change has verified a different one.
- A client's own Forwarded element cannot change its address behind trusted proxies, but its `proto`
  comes first and decides whether the request counts as secure. The address is safe as long as the
  client's text leaves no quoted value open, which an appended part without backslashes enforces.
- Forwarded displaces X-Forwarded-For altogether. Where proxies append only to the latter, it decides
  exactly if the client sends no Forwarded field; with one the client chooses its address.
- `release_connection` notifies after it unlocks, so the destructor of the pool can pass in between and
  the notification comes to a condition variable already destroyed. That is possible exactly if a
  connection is out or a notification outstanding when the destructor is called; without spurious
  wake-ups a single connection is not enough unless somebody waits.
- docs/PROXY_SECURITY.md says the first untrusted address from the right is the client. If every hop
  is trusted there is none, and the code then takes the leftmost hop.
- Dispatch is decided by one pattern: if the most static match lacks the method, the answer is 405 even
  when another matching pattern has it.

## Model

| member | source | states |
|---|---|---|
| `TokenFamilies.FamilyIsChain` | src/service/auth_service.cpp:325-493 | every token family is one linear parent chain of increasing ids with a common user, and only its tip may be unrevoked |
| `TokenFamilies.ApplyKeepsInv` | src/service/auth_service.cpp:195-323 | login, refresh, both logouts, session revocation, password change and administration all keep the row invariant behind the chain: unique hashes, one child, one root, a revoked older parent of the same user and family |
| `TokenFamilies.RunKeepsInv` | src/repository/auth_session_repository.cpp:347-439 | the same in every state of any interleaved run in which the parts of a login are separate steps |
| `TokenFamilies.ExchangedOnce` | src/service/auth_service.cpp:349-380 | in any run a refresh token is exchanged successfully at most once; every later attempt is reported as reuse |
| `TokenFamilies.ReuseKillsFamily` | src/service/auth_service.cpp:365-399 | after a reported reuse no later state has an unrevoked session of the family, none of its access tokens authenticates, and each of its refresh tokens is again reported as reuse without effect |
| `TokenFamilies.DeadForever` | src/repository/auth_session_repository.cpp:589-630 | a family with all sessions revoked stays so through every step of every run |
| `TokenFamilies.DeadBranches` | src/service/auth_service.cpp:366-472 | the empty-family fallback, the second reuse branch and the missing-owner branch never run: refresh equals the function without them |
| `TokenFamilies.RefreshFrame` | src/service/auth_service.cpp:325-493 | all-or-nothing with an exact frame: which rows flip and which row is added under every outcome, and exactly when reuse, expiry and a disabled owner are reported |
| `TokenFamilies.ThreeDuplicatesChangeNothing` | src/service/auth_service.cpp:682-744 | three token draws that all collide leave the tables unchanged, the parent revocation included |
| `TokenFamilies.RefreshSucceedsIff` | src/service/auth_service.cpp:325-493 | for any session: refresh succeeds if and only if it is live, unexpired and of an enabled user, the expiries are in order and some draw of non-empty hashes that no row holds comes after draws that only collide; it is the first such draw; and exactly when creation fails instead |
| `TokenFamilies.NewDrawRefreshes` | src/service/auth_service.cpp:325-493 | in plain terms: with a first draw of new, non-empty hashes every live, unexpired session of an enabled user is exchanged, for that draw |
| `TokenFamilies.RefreshRejected` | src/service/auth_service.cpp:457-493 | expiries out of order or an empty hash in the first draw make a refresh fail and leave the tables as they were |
| `TokenFamilies.NewDrawLogsIn` | src/service/auth_service.cpp:624-744 | with such a draw the insert of a login gives any user exactly one more live session, with the hashes of the draw and the expiries of the lifetimes |
| `TokenFamilies.LoginRejected` | src/service/auth_service.cpp:624-744 | expiries out of order, an unknown user or an empty hash in the first draw: nothing is stored |
| `TokenFamilies.AuthenticatedIff` | src/service/auth_service.cpp:495-565 | an access token authenticates (u, id) if and only if id is a live session with its hash, unexpired as an access token, of the enabled user u; expired, disabled and invalid each have their exact condition on the rows, too |
| `TokenFamilies.RunGrows` | src/repository/auth_session_repository.cpp:475-630 | over any run rows are never lost and no column but the revoked mark changes, which only ever goes up |
| `TokenFamilies.SerialRunKeepsAll` | src/service/auth_service.cpp:195-622 | run serially, services and command line keep the chain invariant, no live session for a disabled user, and the administration invariant, all three at once |
| `TokenFamilies.InsertKeepsDisabledCleanIff` | src/service/auth_service.cpp:313-322 | a login's insert keeps disabled users without live sessions if and only if the user looked up is still enabled or no draw can be stored, a condition on the tables and the draws before it |
| `TokenFamilies.IssuedIff` | src/service/auth_service.cpp:624-744 | tokens are issued if and only if the user exists, the expiries are in order and some draw of non-empty hashes is held by no row and comes after draws that collide; the first such draw is the one; and exactly when all draws are taken for duplicates |
| `TokenFamilies.InterleavedLoginDefeatsDisable` | src/service/auth_service.cpp:235-322 | a concrete run in which a disable between lookup and insert leaves a disabled user a live session |
| `TokenFamilies.InsertKeepsPasswordChangeIff` | src/service/auth_service.cpp:313-322 | a login gives its user a live session on a password no longer in force if and only if the password changed since its lookup and some draw can be stored; a session kept by the change is then no longer the only live one |
| `TokenFamilies.InterleavedLoginOutlivesPasswordChange` | src/service/auth_service.cpp:235-322 | a concrete run in which a login from before a password change ends with a live session after it |
| `TokenFamilies.PasswordSticksIff` | src/service/auth_service.cpp:283-296 | the password in force stays in force in every run in which nobody sets another if and only if no login under way has verified a different one |
| `TokenFamilies.CurrentAttemptsStay` | src/service/auth_service.cpp:235-322 | in such a run, when every login under way has verified the password in force, this stays so and every later insert is on that password |
| `TokenFamilies.RehashKeepsPasswordIff` | src/service/auth_service.cpp:283-296 | one rehash changes no other user and no session, and leaves the password in force if and only if it is still the one looked up |
| `TokenFamilies.LateRehashUndoesPasswordChange` | src/service/auth_service.cpp:283-296 | a concrete run in which the rehash puts the old password back |
| `TokenFamilies.CreateKeepsInv` | src/repository/auth_session_repository.cpp:347-439 | storing a row keeps the chain invariant when its caller gives it a revoked, childless parent of the same user and family, or none in a new family; the statement itself does not check the parent |
| `TokenFamilies.PasswordChangeLeavesCurrent` | src/service/account_security_service.cpp:256-289 | after a password change the user has at most the current session live |
| `TokenFamilies.IssueAddsOneRow` | src/service/auth_service.cpp:624-744 | a successful issue adds exactly one row, under the next id, for one of the draws |
| `Schema.RevokeCountsDrop` | src/repository/auth_session_repository.cpp:475-630 | each bulk revocation reports exactly the drop in unrevoked rows and touches no other column |
| `Schema.CreateIff` | src/repository/auth_session_repository.cpp:347-439 | a row is stored if and only if its user exists, its hashes are non-empty and held by no row and its expiries in order; it keeps the values given and is live |
| `Schema.Transaction.Begin` | src/database/transaction.cpp:103-118 | a new transaction is open on its database and remembers the state to restore |
| `Schema.Transaction.Move` | src/database/transaction.cpp:124-135 | moving hands over the open transaction and leaves the source inert |
| `Schema.Transaction.Commit` | src/database/transaction.cpp:244-253 | a commit ends an open transaction, keeps the tables, and refuses an inactive one |
| `Schema.Transaction.Rollback` | src/database/transaction.cpp:255-264 | a rollback restores the tables as of begin and refuses an inactive transaction |
| `Schema.Transaction.Destroy` | src/database/transaction.cpp:120-123 | an unfinished transaction is rolled back on destruction, a finished or moved-from one changes nothing |
| `Schema.Transaction.Assign` | src/database/transaction.cpp:138-156 | move assignment first rolls back what was held, then takes over; self assignment changes nothing |
| `AuthService.SessionRepository.CreateSession` | src/repository/auth_session_repository.cpp:347-439 | an insert refuses malformed values, a missing user and a taken hash, and otherwise adds the one row with the family defaulted, whatever parent it is given |
| `AuthService.SessionRepository.FindByRefreshTokenHash` | src/repository/auth_session_repository.cpp:441-473 | finds the row holding the hash, and only that |
| `AuthService.SessionRepository.FindByAccessTokenHash` | src/repository/auth_session_repository.cpp:694-739 | finds the row holding the hash, and only that |
| `AuthService.SessionRepository.RevokeById` | src/repository/auth_session_repository.cpp:515-550 | revokes that row if it was unrevoked and says whether it did |
| `AuthService.SessionRepository.RevokeByIdForUser` | src/repository/auth_session_repository.cpp:928-992 | revokes the row only for its owner and says whether it did |
| `AuthService.SessionRepository.RevokeFamily` | src/repository/auth_session_repository.cpp:589-630 | revokes exactly the unrevoked rows of the family and returns their number |
| `AuthService.SessionRepository.RevokeAllForUser` | src/repository/auth_session_repository.cpp:552-587 | revokes exactly the unrevoked rows of the user and returns their number |
| `AuthService.SessionRepository.RevokeAllExceptForUser` | src/repository/auth_session_repository.cpp:475-513 | revokes exactly the other unrevoked rows of the user and returns their number |
| `AuthService.AuthService.IssueTokens` | src/service/auth_service.cpp:682-744 | the counted retry loop over colliding draws has the effect of one issue |
| `AuthService.AuthService.StartSession` | src/service/auth_service.cpp:313-322 | the inserting half of a login keeps the invariant, and gives a one-member family exactly if some draw can be stored |
| `AuthService.AuthService.RefreshTokens` | src/service/auth_service.cpp:325-493 | through snapshot and rollback, refresh has exactly the effect and outcome whose frame is proved |
| `AuthService.AuthService.AuthenticateAccessToken` | src/service/auth_service.cpp:495-565 | accepts exactly unrevoked, unexpired sessions of existing enabled users |
| `AuthService.AuthService.LogoutAccessToken` | src/service/auth_service.cpp:567-600 | revokes at most the presented session |
| `AuthService.AuthService.LogoutAllAccessToken` | src/service/auth_service.cpp:602-622 | an authenticated caller loses all live sessions, and the number returned is the drop |
| `AuthService.AccountSecurityService.RevokeSession` | src/service/account_security_service.cpp:166-206 | a session is revoked only for its owner; a stranger's id changes nothing |
| `AuthService.AccountSecurityService.ChangePassword` | src/service/account_security_service.cpp:208-290 | each answer has its exact condition on caller, passwords and new hash; password and other sessions change together or not at all |
| `Administration.StepKeepsInv` | src/service/admin_service.cpp:125-332 | every service step keeps an enabled super administrator, the base role of every user and the agreement of the legacy role column with super_admin, for any actor, also one whose permission is stale |
| `Administration.RunKeepsInv` | apps/secure_admin/main.cpp:176-271 | the same over any serialised run of service and command-line steps |
| `Administration.GuardIsExact` | src/repository/rbac_repository.cpp:670-701 | the last-administrator guard refuses if and only if going ahead would leave no enabled super administrator |
| `Administration.StatusKeepsInv` | src/service/admin_service.cpp:125-195 | disabling under the guard keeps the three rules |
| `Administration.AssignKeepsInv` | src/repository/rbac_repository.cpp:294-350 | granting keeps the three rules, the legacy column included |
| `Administration.RevokeKeepsInv` | src/repository/rbac_repository.cpp:352-412 | revoking keeps the three rules, the base role included |
| `Administration.ForbiddenIff` | src/service/admin_service.cpp:66-79 | a service call is refused if and only if its actor holds none of the roles for it: support, security_admin or super_admin to enable, the last two to disable, super_admin to assign or revoke; a refusal changes nothing |
| `Administration.PermissionIff` | src/repository/rbac_repository.cpp:511-548 | a user has a permission if and only if it holds a role that comes with it, for each of the eight permissions |
| `Administration.AssignIs` | src/repository/rbac_repository.cpp:294-350 | a grant succeeds for a known user and role, after it the target has the role, and no other role or flag of anybody changes |
| `Administration.RevokeIs` | src/repository/rbac_repository.cpp:352-412 | a revocation succeeds exactly for a known user and role other than the base role, the last enabled super administrator apart; after it the target lacks the role and nothing else changes |
| `Administration.StatusIs` | src/service/admin_service.cpp:125-195 | enabling and disabling set the flag of the target alone, with their exact conditions; disabling ends its sessions |
| `Administration.CommandStatusIs` | apps/secure_admin/main.cpp:235-271 | the same from the command line, which reports whether it had to change the flag |
| `Administration.CommandRolesAre` | apps/secure_admin/main.cpp:197-234 | roles change from the command line as they do in the service, once the user is known |
| `Administration.CommandIs` | apps/secure_admin/main.cpp:197-271 | what each of the six commands leaves behind when it succeeds, the legacy role column included, and that it leaves nothing when it fails |
| `Administration.AdminService.SetUserEnabled` | src/service/admin_service.cpp:125-195 | in one transaction: disables and revokes sessions together, or refuses and changes nothing; forbidden exactly to those without one of the roles for it |
| `Administration.AdminService.AssignRole` | src/service/admin_service.cpp:228-270 | the transactional grant, forbidden exactly to those who do not hold super_admin |
| `Administration.AdminService.RevokeRole` | src/service/admin_service.cpp:272-332 | the transactional revocation, forbidden exactly to those who do not hold super_admin |
| `Administration.RunCommand` | apps/secure_admin/main.cpp:197-271 | promote, demote, assign, revoke, enable and disable are steps of the same machine and keep its invariant |
| `WorkerPool.Conservation` | src/runtime/worker_pool.cpp:68-241 | queue within capacity, active within the thread count, accepted = queued + active + just finished + completed, first in first out, and each accepted task queued, held or done exactly as often as accepted |
| `WorkerPool.StepKeepsInv` | src/runtime/worker_pool.cpp:182-241 | every step of submitters, workers and stop keeps the invariant |
| `WorkerPool.RunKeepsInv` | src/runtime/worker_pool.cpp:68-241 | the same over any interleaving |
| `WorkerPool.NobodyStranded` | src/runtime/worker_pool.cpp:104-116 | a queued task always has an awake worker or a notification on its way |
| `WorkerPool.StopDrains` | src/runtime/worker_pool.cpp:119-150 | when stop returns every accepted task has completed and no more is accepted |
| `WorkerPool.AcceptedIff` | src/runtime/worker_pool.cpp:68-117 | a task is accepted if and only if the pool is not stopping and fewer than capacity tasks are queued; it goes to the end of the queue |
| `WorkerPool.OneNotificationPerTask` | src/runtime/worker_pool.cpp:68-117 | in any run each accepted task owes exactly one notification until it is delivered |
| `WorkerPool.JoiningNeverBlocks` | src/runtime/worker_pool.cpp:141-149 | while stop joins, some worker can always move until all have left |
| `WorkerPool.StopTerminates` | src/runtime/worker_pool.cpp:119-150 | after joining starts, the workers take a bounded number of steps in any run |
| `WorkerPool.WorkerPool.TrySubmit` | src/runtime/worker_pool.cpp:68-117 | one locked section of the submit step: accepts, or says full or stopped and counts the rejection |
| `WorkerPool.WorkerPool.TakeTask` | src/runtime/worker_pool.cpp:186-224 | the worker takes the oldest task, sleeps or leaves as the proved machine does |
| `WorkerPool.WorkerPool.FinishTask` | src/runtime/worker_pool.cpp:226-234 | the active count drops before the completed count rises |
| `WorkerPool.WorkerPool.CompleteTask` | src/runtime/worker_pool.cpp:236-239 | the completed count catches up and the worker looks again |
| `WorkerPool.WorkerPool.BeginStop` | src/runtime/worker_pool.cpp:119-141 | only the first stop goes on to notify and join |
| `WorkerPool.WorkerPool.JoinWorkers` | src/runtime/worker_pool.cpp:141-149 | stop returns only with all workers gone |
| `ConnectionPool.Partition` | src/database/database.cpp:553-659 | free indices, live leases and returning connections partition 0..size-1 and the active count is their number |
| `ConnectionPool.LeasesExclusive` | src/database/database.cpp:244-303 | at no time in any run do two live leases hold the same connection |
| `ConnectionPool.StepKeepsInv` | src/database/database.cpp:553-659 | acquiring, waiting, timing out, releasing, moving and closing keep the invariant |
| `ConnectionPool.RunKeepsInv` | src/database/database.cpp:553-659 | the same over any interleaving |
| `ConnectionPool.NoStrandedWaiter` | src/database/database.cpp:570-610 | a thread never sleeps beside a free connection unless a wake-up is on its way |
| `ConnectionPool.TimerWokeIt` | src/database/database.cpp:576-610 | in any run a woken waiter counts as past its time if and only if its timer woke it from its last sleep |
| `ConnectionPool.TimedOutIff` | src/database/database.cpp:576-633 | a wait is counted as timed out if and only if that is so and there is still no connection and no shutdown; the waiter then leaves |
| `ConnectionPool.MoveAssign` | src/database/database.cpp:271-292 | move assignment, from a live or an inert lease, frees what the target held, hands over what the source held if anything, leaves other leases alone and keeps the invariant |
| `ConnectionPool.CloserSeesIdlePool` | src/database/database.cpp:426-456 | the destructor proceeds only with every index returned and nobody waiting, and never sleeps through that moment |
| `ConnectionPool.ClosedPoolIsFull` | src/database/database.cpp:426-456 | a closed pool has every connection and no lease or waiter |
| `ConnectionPool.ShutdownIsBounded` | src/database/database.cpp:426-456 | from the announcement on, releases, returning waiters and notifications take a bounded number of steps in any run |
| `ConnectionPool.ShutdownNeverBlocks` | src/database/database.cpp:426-456 | until the destructor is past its wait one of those steps is possible or its own next look succeeds |
| `ConnectionPool.QuietCloseIff` | src/database/database.cpp:426-456 | in no run from its call on can the destructor get past its wait with a notification still to come, if and only if no connection is out and no notification outstanding when it is called |
| `ConnectionPool.QuietCloseUnlessSpuriousIff` | src/database/database.cpp:426-456 | without spurious wake-ups of the destructor, one connection out is harmless, too, exactly when nobody is waiting and no notification is outstanding |
| `ConnectionPool.OwedAreUndelivered` | src/database/database.cpp:636-659 | in any run the notifications still to come are the releases less the notifications delivered |
| `ConnectionPool.AcquisitionsAre` | src/database/database.cpp:553-659 | in any run every acquisition counted is a connection that is out or one that was released |
| `ConnectionPool.NotificationAfterClose` | src/database/database.cpp:654-658 | a concrete run in which a release has yet to notify when the destructor is past its wait |
| `ConnectionPool.Database.StartAcquire` | src/database/database.cpp:553-575 | takes a free connection, is refused on shutdown, or is counted as a waiter |
| `ConnectionPool.Database.ResumeAcquire` | src/database/database.cpp:576-633 | a woken waiter takes, sleeps again, times out or is refused, and is uncounted when it leaves |
| `ConnectionPool.Database.ReleaseConnection` | src/database/database.cpp:636-659 | the connection comes back once and a waiter is notified |
| `ConnectionPool.Database.MoveLease` | src/database/database.cpp:260-269 | a moved-from lease holds nothing, and one made from an inert lease is inert |
| `ConnectionPool.Database.AssignLease` | src/database/database.cpp:271-292 | move assignment between leases, live or inert, and to itself |
| `ConnectionPool.Database.Close` | src/database/database.cpp:426-456 | shutdown is announced to all waiters before the destructor waits |
| `RateLimiter.WindowBound` | src/http/rate_limiter.cpp:46-109 | on any trace without eviction of the client, every half-open interval of one window holds at most 2 * max_requests - 1 of its allowed requests |
| `RateLimiter.BoundIsTight` | src/http/rate_limiter.cpp:28-109 | 2 * max_requests - 1 is attained by an eviction-free trace, for every configuration and client |
| `RateLimiter.RetryIsLeast` | src/http/rate_limiter.cpp:75-101 | retry_after is the least whole number of seconds after which the bucket allows again, and is at least one before the clamp at lines 85-91 applies |
| `RateLimiter.RemainingIs` | src/http/rate_limiter.cpp:69-109 | remaining is the maximum less the requests allowed since the window opened, on any eviction-free trace, and a request is denied exactly when that is used up |
| `RateLimiter.ZeroSwitchesOff` | src/http/rate_limiter.cpp:31-40 | a maximum of zero allows everything and keeps nothing |
| `RateLimiter.SilentClientIsAllowed` | src/http/rate_limiter.cpp:28-109 | a denied client silent for its retry time is allowed next, whatever others do |
| `RateLimiter.CleanupIsInvisible` | src/http/rate_limiter.cpp:28-138 | with at most max_buckets clients every decision, remaining count and retry time is that of a limiter that never deletes a bucket |
| `RateLimiter.SweepIs` | src/http/rate_limiter.cpp:112-138 | every 1024th check drops the buckets idle for two windows and only those; otherwise a check drops at most the bucket that makes room |
| `RateLimiter.CapacityKept` | src/http/rate_limiter.cpp:46-60 | one check keeps the table within its capacity, by evicting when a new client meets a full one |
| `RateLimiter.NeverOverCapacity` | src/http/rate_limiter.cpp:46-60 | in no trace does the table ever outgrow its capacity |
| `RateLimiter.RateLimiter.Cleanup` | src/http/rate_limiter.cpp:112-138 | the sweep removes exactly the buckets stale by two windows, on every 1024th check |
| `RateLimiter.RateLimiter.CheckClient` | src/http/rate_limiter.cpp:28-109 | one check is one step of the traces above |
| `AuthAbuse.KeyRunKeepsInv` | src/security/auth_abuse_protector.cpp:276-370 | over any time-ordered run of a key: failures below the limit, level positive exactly while a lock time is set, no lock past last_seen + maximum |
| `AuthAbuse.LockHolds` | src/security/auth_abuse_protector.cpp:276-324 | a locked key is denied at every instant before its end and attempts meanwhile change nothing but last_seen |
| `AuthAbuse.LevelFallsAfterQuiet` | src/security/auth_abuse_protector.cpp:293-315 | the level falls only, and on a check exactly, once a full window has passed since the lock ended, and then to zero |
| `AuthAbuse.NewLock` | src/security/auth_abuse_protector.cpp:326-370 | a failure locks exactly when it is the limit-th counted; the lock lasts min(maximum, base * 2^(level-1)) from it, and the reported seconds are right if and only if that fits 32 bits |
| `AuthAbuse.LockoutDuration` | src/security/auth_abuse_protector.cpp:372-414 | the early-exit doubling loop computes min(maximum, base * 2^(level-1)) without leaving 64 bits |
| `AuthAbuse.CeilSecondsUndershoot` | src/security/auth_abuse_protector.cpp:38-65 | for every positive duration: the reported time falls short if and only if the duration exceeds whole seconds by a fraction under a millisecond or exceeds 2^32 - 1 seconds |
| `AuthAbuse.PruningLosesNothingLive` | src/security/auth_abuse_protector.cpp:416-444 | a pruned entry is unlocked, its next check would reset it, and its next failure leaves what a fresh entry would |
| `AuthAbuse.PruneIs` | src/security/auth_abuse_protector.cpp:416-444 | every 256th operation drops the entries not seen for a window and the longest lock, a check drops no others |
| `AuthAbuse.PruningInvisibleIff` | src/security/auth_abuse_protector.cpp:276-444 | pruning shows in no decision up to the next failure, and in none for ever after if and only if no attempt came before that failure, or it fell at the start of the window the attempts opened or after its end, or the limit is one |
| `AuthAbuse.WindowsToldApart` | src/security/auth_abuse_protector.cpp:326-370 | for every limit above one, the continuation that separates a kept key from a pruned one outside that condition |
| `AuthAbuse.PruningSeenThroughCheck` | src/security/auth_abuse_protector.cpp:276-324 | a literal instance of the separated case |
| `AuthAbuse.CheckKeepsInv` | src/security/auth_abuse_protector.cpp:102-148 | a check keeps both maps within capacity and every entry valid |
| `AuthAbuse.RecordFailureKeepsInv` | src/security/auth_abuse_protector.cpp:150-206 | a failure keeps both maps within capacity and every entry valid |
| `AuthAbuse.EitherLockRefuses` | src/security/auth_abuse_protector.cpp:102-148 | an attempt is allowed if and only if neither its account nor its address is locked, pruning notwithstanding |
| `AuthAbuse.LockIsReported` | src/security/auth_abuse_protector.cpp:276-324 | a locked key reports what is left of the lock, to a failure as to an attempt: at least a second, less than a second too long and less than a millisecond too short, within 32 bits |
| `AuthAbuse.LongerLockIsReported` | src/security/auth_abuse_protector.cpp:102-148 | a refused attempt reports the longer of its two locks so |
| `AuthAbuse.FailureRefusedIff` | src/security/auth_abuse_protector.cpp:150-206 | a failure is refused if and only if it leaves its account or its address locked |
| `AuthAbuse.ActsKeyByKey` | src/security/auth_abuse_protector.cpp:102-206 | the two maps behave, key by key, as the single-key machine of the run theorems |
| `AuthAbuse.RunsProject` | src/security/auth_abuse_protector.cpp:102-224 | any run of checks, failures and successes gives every account and every address a run of the single-key machine, with pruning, eviction and success as erasures |
| `AuthAbuse.ProtectorRunKeepsInv` | src/security/auth_abuse_protector.cpp:102-224 | every reachable protector is within both capacities and all its entries are valid |
| `AuthAbuse.ProtectorLockHolds` | src/security/auth_abuse_protector.cpp:102-206 | in any run a lock holds until its end unless its key is evicted or its account logs in: every check and failure on it is refused and none moves the end |
| `AuthAbuse.AuthAbuseProtector.Prune` | src/security/auth_abuse_protector.cpp:416-444 | one pass removes exactly the entries quiet for window + maximum |
| `AuthAbuse.AuthAbuseProtector.CheckAttempt` | src/security/auth_abuse_protector.cpp:102-148 | the in-place check is the proved step |
| `AuthAbuse.AuthAbuseProtector.RecordFailedLogin` | src/security/auth_abuse_protector.cpp:150-206 | the in-place failure is the proved step |
| `AuthAbuse.AuthAbuseProtector.RecordSuccess` | src/security/auth_abuse_protector.cpp:208-224 | success forgets the account and not the address |
| `HttpSession.OneOutstandingOperation` | src/http/http_session.cpp:127-290 | for every order of callbacks a started, unstopped session has exactly one outstanding operation and it is the one its phase names |
| `HttpSession.NothingAfterStop` | src/http/http_session.cpp:158-183 | after stop nothing is read, written or counted; callbacks already due only drain away |
| `HttpSession.AtMostOneReadAfterDrain` | src/http/http_session.cpp:226-290 | at most one more request is read after the drain flag is set |
| `HttpSession.DrainTerminates` | src/http/tls_http_session.cpp:659-807 | a draining session is stopped after at most five of its own callbacks |
| `HttpSession.AnswersMatchRequests` | src/http/http_session.cpp:536-731 | each request is answered at most once, only the last may stay unanswered, a closing response is the last one, and every response begun while draining is closing |
| `HttpSession.HandshakeIs` | src/http/tls_http_session.cpp:194-229 | a good handshake reads, a failed one stops the session |
| `HttpSession.ReadIs` | src/http/http_session.cpp:226-290 | a request is worked on if and only if the pool takes it and, in a drain, its path is /ready or /metrics; otherwise it gets a final response; a failed read stops the session |
| `HttpSession.WorkIs` | src/http/http_session.cpp:588-630 | the response of a worker keeps the connection if and only if it does not end it itself and no drain has begun |
| `HttpSession.WriteIs` | src/http/tls_http_session.cpp:696-753 | a failed write stops the session, a good one reads on or ends it, over TLS by a shutdown |
| `HttpSession.StepKeepsInv` | src/http/tls_http_session.cpp:134-365 | every callback of either session kind keeps the phase invariant |
| `HttpSession.Connection.HandleRead` | src/http/http_session.cpp:226-290 | a finished read moves session, gauges and manager as the machine does |
| `HttpSession.Connection.SendResponse` | src/http/http_session.cpp:588-630 | a stopped session sends nothing; a draining one closes |
| `HttpSession.Connection.HandleWritten` | src/http/tls_http_session.cpp:696-753 | the end of a write reads on, shuts down or disconnects, and finishes the active request once |
| `HttpSession.Connection.HandleDisconnect` | src/http/http_session.cpp:733-768 | stopping happens once: gauge down, active request finished, manager left |
| `HttpSession.Connection.DoDrain` | src/http/tls_http_session.cpp:153-166 | draining before the first read disconnects |
| `HttpSession.Connection.HandleHandshake` | src/http/tls_http_session.cpp:194-229 | a failed handshake disconnects, a good one reads |
| `HttpSession.Connection.HandleTlsShutdown` | src/http/tls_http_session.cpp:783-807 | the end of the TLS shutdown disconnects whatever its result |
| `HttpSession.Connection.CompleteRequest` | src/http/http_session.cpp:536-550 | the worker's response is written unless the session has stopped |
| `HttpSession.ConnectionManager.Add` | src/net/connection_manager.cpp:19-43 | a full manager takes nobody |
| `HttpSession.ConnectionManager.Remove` | src/net/connection_manager.cpp:45-60 | removal is exact and keeps the bound |
| `HttpServer.GaugesExact` | src/http/http_server.cpp:371-501 | in every reachable state the gauges equal the unstopped sessions and those with an active request, and the limit covers the session being accepted |
| `HttpServer.StepKeepsInv` | src/http/http_server.cpp:234-269 | accepting, registering, draining, stopping, signals and callbacks keep the server invariant |
| `HttpServer.RegistrationSucceeds` | src/http/http_server.cpp:442-461 | the fallback for a failed registration never runs |
| `HttpServer.AcceptedIff` | src/http/http_server.cpp:383-440 | in any run a connection is taken if and only if there are fewer than the limit and the server neither drains nor has stopped; otherwise nothing changes |
| `HttpServer.NobodyStranded` | src/net/connection_manager.cpp:19-43 | a registered session has its start pending or exactly one operation outstanding |
| `HttpServer.StopEmptiesServer` | src/http/http_server.cpp:253-269 | once stopped and its signals delivered, the server has no connection and both gauges are zero |
| `HttpServer.QuietDrainIsEmpty` | src/net/connection_manager.cpp:62-78 | a draining server with nothing outstanding has no connection left |
| `HttpServer.DrainIsBounded` | src/http/http_server.cpp:234-251 | from the beginning of a drain on, in any run, posted signals and callbacks of sessions told to drain or stop take a bounded number of steps |
| `HttpServer.DrainNeverBlocks` | src/net/connection_manager.cpp:62-78 | while a draining server has a connection one of those steps is possible |
| `HttpServer.NoNewConnections` | src/http/http_server.cpp:234-251 | after draining begins no session is made and connections only go down |
| `HttpServer.SessionsProject` | src/http/http_server.cpp:371-501 | in any run of the server every session goes through a run of the session machine |
| `HttpServer.SessionsStayWithinLimits` | src/http/http_server.cpp:234-269 | so in the server, too, a draining session reads at most one more request and a stopped one never changes |
| `HttpServer.Server.SignalAll` | src/net/connection_manager.cpp:62-96 | the snapshot loop signals exactly the registered sessions |
| `HttpServer.Server.DoBeginDraining` | src/http/http_server.cpp:234-251 | one effect however often it is called |
| `HttpServer.Server.DoStop` | src/http/http_server.cpp:253-269 | stopping implies draining and signals everybody once |
| `HttpServer.Server.HandleAccept` | src/http/http_server.cpp:383-440 | a session is made only when not stopped, not draining and not full |
| `HttpServer.Server.RegisterSession` | src/http/http_server.cpp:442-461 | from a valid state registration always succeeds |
| `Addresses.CheckContains` | src/net/trusted_proxy.cpp:752-807 | the mask form and the byte loop both decide that network and address agree after division by 2^(width - prefix), for every prefix |
| `Addresses.BytesMatchIsPrefix` | src/net/trusted_proxy.cpp:781-806 | the byte-by-byte comparison is prefix equality of the big-endian values |
| `Addresses.MaskedEqual` | src/net/trusted_proxy.cpp:770-778 | words agree under the shifted mask exactly when their leading bits agree |
| `Addresses.ShiftRightIsDiv` | src/net/trusted_proxy.cpp:770-778 | leading bits are division by a power of two |
| `Addresses.WalkChain` | src/net/trusted_proxy.cpp:684-714 | the right-to-left walk yields the rightmost untrusted address, or the leftmost if all are trusted |
| `Addresses.ClientIsRightmostUntrusted` | src/net/trusted_proxy.cpp:684-714 | that address is the only one with only trusted hops to its right that is untrusted or leftmost |
| `Addresses.PrependingIsIgnored` | src/net/trusted_proxy.cpp:684-714 | nothing put before a chain with an untrusted hop changes the result |
| `Addresses.IsTrusted` | src/net/trusted_proxy.cpp:720-740 | trusted exactly when some configured network contains the address |
| `QuotedLists.SplitTopLevel` | src/net/trusted_proxy.cpp:80-125 | the scanning loop cuts at exactly the delimiters outside quotes and fails exactly on an unterminated quote |
| `QuotedLists.SplitInvertsJoin` | src/net/trusted_proxy.cpp:80-125 | a balanced string has exactly one decomposition into balanced pieces without top-level delimiters, and the splitter finds it |
| `QuotedLists.InnerSplitNeverFails` | src/net/trusted_proxy.cpp:354-364 | a piece of an accepted split never has an unterminated quote for a second split |
| `QuotedLists.FrontSplitsOffIff` | src/net/trusted_proxy.cpp:80-125 | in an accepted text the pieces of a balanced tail come last, and the text before it gives the others, if and only if that text leaves no quoted value open |
| `QuotedLists.PlainTailMeansBalancedFront` | src/net/trusted_proxy.cpp:80-125 | a balanced tail without backslashes cannot close a quoted value left open before it |
| `QuotedLists.QuotedListRoundTrip` | src/net/trusted_proxy.cpp:80-189 | joining quoted strings and splitting gives the list back, and each unquotes to what was quoted |
| `QuotedLists.Unquote` | src/net/trusted_proxy.cpp:127-189 | the flag-driven loop accepts and refuses, with the same error, as the one-character look-ahead form |
| `QuotedLists.QuoteBijection` | src/net/trusted_proxy.cpp:127-189 | a quoted value unquotes to s if and only if it is the quoting of s |
| `ForwardedHeader.ParseForwarded` | src/net/trusted_proxy.cpp:349-445 | the nested loops compute the fold the theorems below are about, error for error |
| `ForwardedHeader.OneAddressPerElement` | src/net/trusted_proxy.cpp:354-442 | an accepted header gives one address per element, in order, from its only `for` parameter, and at most 64 |
| `ForwardedHeader.ForwardedRoundTrip` | src/net/trusted_proxy.cpp:349-445 | a header written with quoted nodes reads back as their addresses, or is refused beyond 64 |
| `ForwardedHeader.AppendedElements` | src/net/trusted_proxy.cpp:354-442 | whatever text stands before an appended part, the appended addresses come last and the first scheme named wins |
| `ForwardedHeader.ParseForwardedFor` | src/net/trusted_proxy.cpp:447-474 | the loop computes the fold the next theorem is about |
| `ForwardedHeader.ForwardedForIs` | src/net/trusted_proxy.cpp:447-474 | X-Forwarded-For yields a chain if and only if its parts are those address tokens, at most 64 |
| `ForwardedHeader.AppendedAddresses` | src/net/trusted_proxy.cpp:447-474 | whatever text stands before an appended part of X-Forwarded-For, the appended addresses come last |
| `ForwardedHeader.BracketsComeOff` | src/net/trusted_proxy.cpp:222-262 | brackets and a port come off an IPv6 text |
| `ForwardedHeader.PortComesOff` | src/net/trusted_proxy.cpp:263-297 | a port comes off a dotted address |
| `ForwardedHeader.AddressTextIff` | src/net/trusted_proxy.cpp:222-297 | a node gives a text if and only if it is that text in brackets, with or without a port, or bare, where only a text with a dot and a single colon has a port; all others are refused |
| `ForwardedHeader.NodeIff` | src/net/trusted_proxy.cpp:191-310 | a node gives an address if and only if it has no control character, is neither unknown nor begins with an underscore, and names its text so |
| `TrustedProxy.TrustedProxyResolver.Resolve` | src/net/trusted_proxy.cpp:605-718 | peer check, size limit, header precedence and scheme, in the order and with the errors of the code |
| `TrustedProxy.TrustedProxyResolver.ReadHeader` | src/net/trusted_proxy.cpp:319-342 | the only value of a header, empty when absent, an error when repeated |
| `TrustedProxy.FieldsNamedAre` | src/net/trusted_proxy.cpp:319-342 | a header is found whatever the case of its name, all its fields and in order |
| `TrustedProxy.ForwardedResolves` | src/net/trusted_proxy.cpp:605-718 | behind a trusted peer any accepted Forwarded header resolves to the address of its rightmost element whose address is untrusted, or of its first |
| `TrustedProxy.RenderedResolves` | src/net/trusted_proxy.cpp:605-718 | a header written from nodes, within the limits, is accepted and resolves so |
| `TrustedProxy.SpoofedHopsAreIgnored` | src/net/trusted_proxy.cpp:406-424 | whatever text a client puts before the part its proxies append, the address is that of the appended part once this has an untrusted hop; the secure flag stays the same if and only if the text names no scheme or one that says the same |
| `TrustedProxy.SchemeFlips` | src/net/trusted_proxy.cpp:406-424 | for any two nodes, an element with proto=https in front turns an insecure request secure and leaves its address alone |
| `TrustedProxy.SchemeFlipsInstance` | src/net/trusted_proxy.cpp:406-424 | the same at a literal header |
| `TrustedProxy.SpoofedForHopsAreIgnored` | src/net/trusted_proxy.cpp:655-669 | without a Forwarded header, whatever text a client puts before the part of X-Forwarded-For its proxies append changes nothing of the resolution once that part has an untrusted hop |
| `TrustedProxy.ForwardedForDecidesIff` | src/net/trusted_proxy.cpp:655-663 | X-Forwarded-For values that name different clients resolve differently if and only if there is no Forwarded header or an empty one |
| `TrustedProxy.OwnForwardedChooses` | src/net/trusted_proxy.cpp:655-663 | a Forwarded field of the client, next to any X-Forwarded-For, sets its address to any it likes |
| `TrustedProxy.OwnForwardedChoosesInstance` | src/net/trusted_proxy.cpp:655-663 | a literal request with and without such a field |
| `TrustedProxy.ProtoIs` | src/net/trusted_proxy.cpp:476-502 | X-Forwarded-Proto names https or http if and only if it says so before its first comma, in either case, and leaves no quote open |
| `TrustedProxy.ProtoDecidesIff` | src/net/trusted_proxy.cpp:671-679 | behind a trusted peer and without Forwarded, the field is accepted if and only if it says http or https, and then decides the secure flag whatever the connection, and nothing else |
| `TrustedProxy.RealIpIff` | src/net/trusted_proxy.cpp:663-669 | X-Real-IP alone is accepted if and only if it is an address, and then gives the address and nothing else |
| `TrustedProxy.RealIpCountsLast` | src/net/trusted_proxy.cpp:655-669 | beside Forwarded or X-Forwarded-For it changes nothing |
| `TrustedProxy.OpenQuoteTakesOver` | src/net/trusted_proxy.cpp:80-125 | the condition on the text cannot be dropped: one that leaves a quoted value open takes in an appended part that has an escaped quote, and then the address is its own |
| `TrustedProxy.HeadersMatterIffTrusted` | src/net/trusted_proxy.cpp:624-626 | header fields can change the resolution if and only if the peer is trusted |
| `TrustedProxy.PeerIsClient` | src/net/trusted_proxy.cpp:605-626 | an untrusted peer, or one that forwards nothing, is itself the client, over its own connection |
| `UriText.DecodeComponent` | src/http/router.cpp:36-73 | the index loop decodes escapes left to right and refuses at the first bad one |
| `UriText.DecodeEncode` | src/http/router.cpp:36-73 | decoding inverts percent-encoding, in paths and in queries |
| `UriText.DecodeWritten` | src/http/router.cpp:25-73 | however its characters are written, with hexadecimal digits in either case, a component decodes to them; + is a space in a query alone |
| `UriText.DecodedIsWritten` | src/http/router.cpp:36-73 | and every component that is accepted is written so |
| `UriText.DecodeAccepts` | src/http/router.cpp:46-53 | a component is accepted if and only if every % begins an escape |
| `UriText.SplitPathSegments` | src/http/router.cpp:348-373 | the loop with its trailing-slash case cuts at every slash |
| `UriText.SplitInvertsJoin` | src/http/router.cpp:348-373 | splitting and joining are mutually inverse, "/" being the empty list; only the single empty segment is unreachable |
| `UriText.ReadQueryParameter` | src/http/router.cpp:103-151 | the scanning loop finds the first pair of the decoded name |
| `UriText.QueryRoundTrip` | src/http/router.cpp:103-151 | an encoded query answers each name with its first value |
| `UriText.PathIs` | src/http/router.cpp:335-346 | the path of a target is what stands before the first question mark |
| `UriText.PairIs` | src/http/router.cpp:121-128 | the key of a pair ends at its first equals sign, the value is what follows |
| `UriText.QueryAnswers` | src/http/router.cpp:103-151 | whatever a query holds, a name is answered by the first pair whose key decodes to it, with its decoded value or not at all; pairs with a malformed key are skipped |
| `RoutePatterns.CompilePattern` | src/http/router.cpp:375-438 | the loop building names, shape and count compiles or refuses with the same error as the recursive form |
| `RoutePatterns.CompileInverts` | src/http/router.cpp:375-438 | compiling accepts exactly the texts of well-formed segment lists and gives those segments |
| `RoutePatterns.NameIff` | src/http/router.cpp:75-101 | a parameter name is a non-empty run of ASCII letters, digits and underscores that does not begin with a digit |
| `RoutePatterns.MatchPattern` | src/http/router.cpp:440-474 | the loop returns the bindings of a match or none |
| `RoutePatterns.MatchIff` | src/http/router.cpp:440-474 | a path matches if and only if it has as many segments and each fits its place |
| `RoutePatterns.ReverseRouting` | src/http/router.cpp:440-474 | a path rendered from non-empty, percent-encoded values is matched with exactly those values |
| `RoutePatterns.ShapeIsMeaning` | src/http/router.cpp:375-438 | two compiled patterns have equal shapes if and only if they match the same paths |
| `RouteTable.TableOrder` | src/http/router.cpp:153-234 | after any registrations patterns stand by descending static count, ties in registration order, and no two share a shape |
| `RouteTable.OrderIsDetermined` | src/http/router.cpp:227-233 | that description leaves only one order |
| `RouteTable.StableSortIsStable` | src/http/router.cpp:227-233 | the sort is by static count and never swaps equals |
| `RouteTable.StableSortKeepsRoutes` | src/http/router.cpp:227-233 | the sort loses and invents nothing |
| `RouteTable.AddRouteKeepsInv` | src/http/router.cpp:153-234 | a successful registration keeps order, distinct shapes and routes compiled from their own pattern |
| `RouteTable.PatternsTellApart` | src/http/router.cpp:190-208 | any two registered patterns are told apart by some path |
| `RouteTable.ExactTable` | src/http/router.cpp:153-186 | after any registrations the exact table has exactly the registered paths without parameters, each with the methods registered for it and their first handlers |
| `RouteTable.PatternTable` | src/http/router.cpp:188-234 | and so has every entry of the pattern list for its pattern |
| `RouteTable.AcceptedIff` | src/http/router.cpp:153-234 | a registration is accepted if and only if its path is well-formed, its method is new for it and no pattern of the same shape with other names is in the table |
| `RouteTable.DispatchIs` | src/http/router.cpp:273-329 | dispatch from the registrations alone: an exact path wins over any pattern and is answered by the first handler of its method, without parameters, or 405 with its methods; otherwise the best match answers so, with the parameters of the match; not found exactly when nothing matches |
| `RouteTable.FirstRegistrationServes` | src/http/router.cpp:284-301 | the first registration of a method and an exact path serves it |
| `RouteTable.DispatchIsMostStatic` | src/http/router.cpp:302-328 | without an exact route, not found exactly when nothing matches; otherwise the earliest of the most static matches alone decides, the method included |
| `RouteTable.HandledIff` | src/http/router.cpp:302-322 | a method that some matching pattern serves is served if and only if the most static, earliest match serves it |
| `RouteTable.BestMatchShadows` | src/http/router.cpp:308-317 | two literal registrations and a request answered 405 although the other pattern serves it |
| `RouteTable.RenderedPathIsFound` | src/http/router.cpp:302-322 | a path rendered for a registered pattern is found by it or by one before it |
| `RouteTable.Router.RegisterRoute` | src/http/router.cpp:153-234 | registration in place: the new table, or the error and the old table |
| `RouteTable.Router.DispatchRequest` | src/http/router.cpp:273-329 | dispatch in place is the dispatch of the theorem |

## Left out

- AuthService.AuthService.StartSession: password verification, the dummy verification for unknown accounts and the abuse protector calls of `login` are left out; the caller passes the looked-up user.
- AuthService.AccountSecurityService.ChangePassword: hashing is a parameter; of the new password only its length and whether it equals the old one count.
- TokenFamilies.RehashKeepsPasswordIff: hashing is a parameter; what a stored hash stands for is an arbitrary function.
- TokenFamilies.RefreshFrame: expiry arithmetic is unbounded, so the overflow of 64-bit Unix times is not modelled.
- HttpSession.Connection.HandleRead: the request pipeline behind the worker task is one step whose response is arbitrary.
- HttpSession.Connection.HandleWritten: the plain and the TLS class are one class with a `tls` constant, since their callbacks differ only there.
- HttpServer.Server.HandleAccept: the sessions of a server are values in a map, so the proof of the whole system does not use the `Connection` objects; both take the steps of the same machine.
- Administration.AdminService.SetUserEnabled: the actor is the user its access token authenticates, which AuthService gives; the error of a bad token is not repeated here.
- ConnectionPool.Database.MoveLease: leases are keys of a map and not objects, so aliasing between lease objects is not captured.
- ConnectionPool.Database.ReleaseConnection: a failing ROLLBACK before the release is not modelled; rollback succeeds.
- AuthAbuse.NewLock: the lockout level is unbounded, so its wrap after 2^32 locks of one key is not modelled.
- AuthAbuse.AuthAbuseProtector.CheckAttempt: normalising the account key and the metrics are left out; keys are given.
- RateLimiter.RateLimiter.CheckClient: clock readings are given and nondecreasing; the C++ reads the clock before it locks.
- WorkerPool.WorkerPool.TrySubmit: tasks are identities; what they compute and throw is left out, and an empty task is a caller's error.
- TrustedProxy.TrustedProxyResolver.Resolve: textual IP parsing and printing are a parameter; the size limit, field order and error cases are modelled.
- RouteTable.Router.RegisterRoute: handlers are identities, so the check for an empty handler is left out; response headers and the order of the Allow header too.
- Schema migrations, timestamps of rows, audit events, listing queries and `delete_expired` are left out: single statements without an effect on the properties above.
- Parsing the trusted CIDR list and the configuration file is left out: flat checks.
- Sockets, TLS, timers and HTTP serialisation appear only as callback events; a response with `keep_alive(false)` needs EOF.
- Logging, request identifiers, CORS, HSTS, JSON bodies and metrics text are left out: they carry no state between requests.
