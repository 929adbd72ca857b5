# Retratar, verified

This project models the parts of Retratar that keep state over runs, that have a
fast form which must agree with a simple one, or that print something another
part reads back, and proves that they do what their comments and tests promise.

- **Accounts** (`Account*.dfy`). Login tokens, users, sessions and reserved
  handles are maps; each transaction of `user.Service` and `session.Service` is
  one atomic step with its own clock reading. `AccountStore.Store` is the
  statement-by-statement form, and every method is proved to take exactly that
  step. On top of the steps, `AccountWorld` logs every mint, spend, deletion and
  release of a run, and `AccountLogin`, `AccountHandles` and `AccountPurge`
  prove what holds of every run. `AccountSessions` says from a log which accounts
  exist and which sessions work. `AccountClocks` has the runs in which clocks drift
  too far, and so the exact limits.
- **Rate limits** (`RateLimiter.dfy`, `LimiterAnswers.dfy`, `LoginLimits.dfy`). The
  token bucket limiter as a class with a mutable map and a sweep that inspects
  eight entries in an arbitrary order, refined to a limiter without capacity and
  without eviction; what it answers, from the calls and earlier answers alone; and
  the two limiters that `POST /login` is chained through.
- **Photos** (`Photo*.dfy`). Uploads, removals and account deletions as
  interleaved steps over a disk, the rows and the processing slot, with crashes
  between any two steps, failed removals, Saves that fail late, and power cuts;
  what each request comes to (`PhotoEffects`); and the photo directory itself,
  fault by fault.
- **Photo processing** (`Exif.dfy`, `Reorient.dfy`, `Scaling.dfy`). The EXIF
  reader against a writer, the pixel permutation on a flat buffer, the size
  arithmetic and the memory gate.
- **Card text** (`LineWrap.dfy`). Greedy wrapping by rune with truncation, and
  shrinking a title until it fits, over an arbitrary measure of text.
- **Page styles** (`Hex.dfy`, `Style*.dfy`). The editor's form, the preview's
  query and hidden fields, the stored row, and the stylesheet that is printed;
  `StyleForms` says what each field means, by name.

`Common.dfy` and `Arithmetic.dfy` hold shared definitions. Check everything with
`dafny verify dfyconfig.toml`.

## Reading the model

- **Time** is integers: seconds in the account model and the photo protocol,
  nanoseconds in the deployed limiters. Login tokens, sessions and their purges
  are timed by the database's transaction start, claims and deletions by the
  application.
- **Clocks out of order.** A request that waited for the advisory lock carries an
  older start time than one that ran before it, and the limiter reads its clock
  before it takes its lock. No main result asks for one nondecreasing clock, save
  as a special case: each puts a figure on how far readings may be behind
  (`StartsBehind`, `Lagging`, `Punctual`, `PurgesLead`, `PurgesAhead`), or, like
  `NoLockoutIff`, `LoginSucceedsIff` and `ClaimSucceedsIff`, asks nothing of the
  clock.
- **Secrets and ids** are random in the program and fresh here (`Fresh`), and a
  token or session is named by its digest.
- **Limiter arithmetic** is exact: a bucket holds its tokens times the refill
  interval, so one token is one refill interval.
- **Conditions are exact where a property is not always true.** Eviction is
  unobservable on readings that lag by L if and only if the idle TTL leaves room
  for a full refill and twice the lag (`LaggingEvictionIff`), and the bound on
  admissions holds on the same condition (`AdmissionBoundIff`). Purging is
  unobservable if and only if a purged link is too old for the budget
  (`PurgesUnobservableIff`); this is weaker than what cmd/server/purge.go:15 asks
  for, that the retention alone outlast the window. When transactions start L
  behind the purges before them and claims S behind, it is unobservable if and
  only if window + L <= retention + TTL + 1, L <= retention + 1 and S <= 1
  (`LaggingPurgesUnobservableIff`). The last link of an address works up to its
  expiry if and only if purges read at most retention + 1 ahead of the login
  (`LastLinkSignsInIff`). A reservation loses up to S - 1 of its time to
  purges that read S ahead of the claim, no more, and in some run all of it, so a
  purge one tick ahead costs nothing (`ReservationHoldsIff`). The budget holds of requests
  that start L behind a purge if and only if no such purge takes a link of the
  request's own window (`BudgetHoldsIff`). An exhausted budget never locks an
  address out if and only if the window does not outlast the link
  (`NoLockoutIff`). The early photo check agrees with the statement if and only
  if the last upload is not on a later day (`EarlyCheckAgreesIff`). The rest of a
  fitting line fits if and only if no kern takes back more than an advance
  (`FaceIsHereditaryIff`). The preview's query reads back as the style if and
  only if the style is well formed (`QueryRoundTripIff`).

Where the code and its comments disagree, the model follows the code:
internal/ogcard/render.go:207-209 says the loop of `fitSize` runs
(maxSize - handleMinSize) / handleStep + 1 times; the loop's guard leaves the
smallest size out, and that size is returned without being measured.
internal/web/ratelimit.go:128-133 says that a new key is refused only when every
bucket in the map is within its idle TTL; the sweep inspects eight, so it may be
refused as soon as eight of a full map are (`NewKeyMayBeRefusedIff`).

## Model

| member | source | states |
|---|---|---|
| `AccountClocks.LaggingPurgesUnobservableIff` | cmd/server/purge.go:31-67 | for every run whose transactions start at most `lag` behind the purges before them and whose claims are at most `skew` behind, start times otherwise in any order, each RequestLogin, CompleteLogin, Issue, Lookup, Revoke, Claim, refusal read and Delete is answered as in the run without its purges, if and only if window + lag <= retention + TTL + 1, lag <= retention + 1 and skew <= 1 |
| `AccountClocks.BudgetForgets` | internal/store/login_tokens.sql.go:36-40 | past the first condition, three links, a purge and a request mint a fourth link that the run without the purge refuses |
| `AccountClocks.LoginNoticesPurge` | internal/store/login_tokens.sql.go:116-119 | past the second, a link fails that would have worked |
| `AccountClocks.ClaimNoticesPurge` | internal/store/deleted_handles.sql.go:14-17 | past the third, a handle is free that would have been reserved |
| `AccountClocks.PurgeShows` | cmd/server/purge.go:31-53 | any purge that changes the next answer of a punctual run makes purging observable |
| `AccountPurge.PurgesUnobservableIff` | cmd/server/purge.go:31-67 | under one nondecreasing clock the condition is window <= retention + TTL + 1 alone |
| `AccountClocks.DeployedPurgesAreUnobservable` | cmd/server/purge.go:16 | with the deployed constants no purge is observed up to a lag of a week and a second and a skew of a second, and no further |
| `AccountPurge.SameAnswers` | internal/store/login_tokens.sql.go:116-119 | from any two stores that differ only by what purges up to given readings may have removed, all later answers agree, on readings so far behind |
| `AccountPurge.SameAnswer` | internal/user/user.go:163-219 | one transaction that starts so far behind the purges, on such a pair of stores, gives one answer and keeps them such a pair |
| `AccountPurge.PurgeKeepsRelated` | internal/store/sessions.sql.go:50-54 | a purge of tokens, sessions or reservations on one side, at any reading, keeps the pair |
| `AccountPurge.SameCount` | internal/store/login_tokens.sql.go:36-40 | the budget counts the same links on both sides when the request starts at most `lag` behind the purges |
| `AccountPurge.SameClaim` | internal/store/users.sql.go:15-25 | for a claim at most one tick behind, a purged reservation is one the claim statement already ignores |
| `AccountPurge.SameRevoke` | internal/store/sessions.sql.go:66-71 | revoking a session whose row a purge took looks as it does with the row, up to the same lag |
| `AccountPurge.ShortRetentionShows` | internal/user/user.go:606-608 | with a longer window, a concrete run in order of four requests and one purge mints a fourth link that the run without the purge refuses |
| `AccountLogin.BudgetHolds` | internal/user/user.go:158-219 | for every address and instant T, at most three links minted since its account was last deleted have start times in (T - window, T], in every run whose requests start at most `lag` behind the purges before them, start times otherwise in any order, when window + lag <= retention + TTL + 1 |
| `AccountLogin.BudgetHoldsIff` | internal/store/login_tokens.sql.go:116-124 | that condition is exact (with an empty window there is nothing to hold): past it, three links, a purge and a request that starts `lag` behind it mint a fourth link in one window |
| `AccountLogin.LateRequestBreaksBudget` | internal/store/login_tokens.sql.go:104-106 | the run that does so |
| `AccountLogin.DeployedBudgetHolds` | internal/user/user.go:40-58 | with the deployed constants the budget holds of every request that starts up to 7 days and 1 second behind a purge, and of no longer wait |
| `AccountLogin.WindowIsCounted` | internal/store/login_tokens.sql.go:36-40 | whatever was minted in a window that reaches past a request's start time is among the rows that request counts, under the same exact condition |
| `AccountLogin.RequestSucceedsIff` | internal/user/user.go:181-212 | in every reachable state, whatever the clocks read, a fresh request mints if and only if fewer than three links of its own address lie in the window that ends with its start, not counting those deleted with their account or purged since; otherwise it is over budget |
| `AccountLogin.OneLiveLink` | internal/store/login_tokens.sql.go:89-94 | in every reachable state an address has at most one unspent link, the one minted last |
| `AccountLogin.LinkSpentOnce` | internal/store/login_tokens.sql.go:12-19 | no link completes two logins over a whole run |
| `AccountLogin.RefusalChangesNothing` | internal/user/user.go:195-197 | a request that mints nothing leaves every table and every outstanding link as it was |
| `AccountLogin.LastIsCounted` | internal/store/login_tokens.sql.go:36-40 | when the budget is spent, the last link minted is in the table and inside the window, whatever clocks requests and purges read |
| `AccountLogin.RunKeepsCounts` | internal/user/user.go:181-212 | the invariant behind it: when the last link of an address was minted the others counted fewer than three, and a purge that takes it leaves only links that expire later |
| `AccountLogin.RefusalLeavesALink` | internal/user/user.go:52-58 | when a request is over budget and the window does not outlast the link, the address's last link is in the table, unexpired, and usable unless a login has spent it; nothing is asked of any clock |
| `AccountLogin.NoLockoutIff` | internal/user/user.go:52-58 | that holds of every run, with start times and purges in any order, if and only if the window does not outlast the link |
| `AccountLogin.LongWindowLocksOut` | internal/user/user.go:53-56 | a longer window locks an address out: three requests at 0 and a fourth as the last link expires |
| `AccountLogin.RunKeepsValid` | internal/user/user.go:163-260 | the link invariant is kept by every run: tokens are mints, unspent is last, the last is spent only by a login, nothing is spent twice |
| `AccountHandles.AccountsAreSound` | migrations/00001_users_and_login_tokens.sql:18-23 | in every reachable state an account is active if and only if it has a handle, and no two share a handle or an address ignoring case |
| `AccountHandles.LoginSucceedsIff` | internal/user/user.go:221-260 | in every reachable state, whatever the clocks read, a link completes a login if and only if it is the last one minted for its address since its account was last deleted, no login has spent it, it is unexpired, and no purge since has read past its retention |
| `AccountHandles.LoginFindsAccount` | internal/store/users.sql.go:320-324 | a login signs in to the one account of its link's address, and to a new one if there is none |
| `AccountHandles.LoginSignsUp` | internal/store/users.sql.go:320-324 | a login whose address no account has adds exactly one account, with that address, the new id and no handle; any other login changes no account |
| `AccountHandles.LastLinkSignsIn` | internal/user/user.go:221-260 | the last link sent to an address completes a login until it expires, unless one has spent it, when purges since it was minted read at most retention + 1 ahead of the login |
| `AccountClocks.LastLinkSignsInIff` | internal/store/login_tokens.sql.go:12-19 | the last link works in every run whose purges lead the login by at most `lead`, if and only if lead <= retention + 1 |
| `AccountClocks.LateLoginFails` | internal/store/login_tokens.sql.go:116-124 | the run that decides it: a link minted at 0, a purge just past its retention, and a login that starts just before it expires, which works without the purge and fails after it |
| `AccountClocks.DeployedLinksWork` | internal/user/user.go:40-58 | with the deployed constants that is a week and one second, and no more |
| `AccountHandles.HandleIsWriteOnce` | internal/store/users.sql.go:15-25 | over any run an account's handle never changes once set, and a deleted account never comes back |
| `AccountHandles.OnlyClaimsChangeAccounts` | internal/store/users.sql.go:15-25 | no transaction but an account's own claim changes its row, and none but its own deletion removes it |
| `AccountHandles.DeletedLinksStayDead` | internal/store/login_tokens.sql.go:78-83 | a link minted before its account was deleted completes no login in any continuation |
| `AccountHandles.ReservationHolds` | internal/user/user.go:310-349 | after its holder is deleted at d, no claim in any spelling succeeds before d + reservation - max(0, s - 1), with s how far purges since are ahead of the claim |
| `AccountClocks.ReservationHoldsIff` | internal/user/user.go:310-349 | over all runs whose purges are at most s ahead, a loss of n covers every early claim if and only if s - 1 <= n; so one tick ahead loses nothing, and any more is lost but for that tick |
| `AccountClocks.SkewIsLost` | internal/store/deleted_handles.sql.go:14-17 | the run that loses it |
| `AccountClocks.EarlyPurgeFreesHandle` | internal/store/deleted_handles.sql.go:14-17 | from the empty store: sign up, claim, delete at 0, sign up again; after a purge at reservation + 1 the second account gets the handle at any reading, and without it exactly from the reservation on |
| `AccountHandles.ClaimSucceedsIff` | internal/store/users.sql.go:15-25 | in every reachable state, whatever the clocks read, a claim succeeds if and only if the account has no handle, nobody holds this one in any spelling, and its last holder, if any, was deleted at least the reservation ago, or more than that before the latest purge since |
| `AccountHandles.ClaimTells` | internal/user/user.go:315-364 | in every reachable state, what a claim is told: not found, already set, taken (held in some spelling, or reserved), or claimed, with the handle as spelt and the time of acceptance |
| `AccountHandles.ClaimIsStored` | internal/store/users.sql.go:15-25 | what was told is what is stored, for that account and no other |
| `AccountHandles.TakenMeansReserved` | internal/user/user.go:351-364 | the read that explains a refused claim may run any number of transactions later and still says taken only of a handle that was reserved when the claim was decided |
| `AccountHandles.ConflictMeansHeld` | migrations/00001_users_and_login_tokens.sql:23 | the claim statement itself says taken only of a handle another account holds |
| `AccountHandles.SessionResolvesToAccount` | internal/store/sessions.sql.go:33-38 | a session that resolves belongs to an existing account, the one it was issued to, within its absolute lifetime |
| `AccountHandles.IssuedSessionResolves` | internal/session/session.go:54-86 | an issued session resolves to its account for exactly its lifetime, whatever else happens, unless it is revoked or its account deleted |
| `AccountHandles.LogoutIsFinal` | internal/session/session.go:88-104 | once revoked, or once its account is deleted, a session never resolves again in any continuation at any clock reading |
| `AccountSessions.LookupResolvesIff` | internal/session/session.go:68-104 | in every reachable state, whatever the clocks read, a session resolves to its account if and only if it was issued, its account is not deleted, it was not logged out, its lifetime is not over, and no purge since has read past its retention |
| `AccountSessions.IssueSucceedsIff` | internal/store/sessions.sql.go:14-31 | a session is issued to every account that exists and to no other |
| `AccountSessions.RevokeAnswers` | internal/store/sessions.sql.go:66-71 | logging out answers done, and a clock that reads earlier than at the session's issue is the one exception |
| `AccountSessions.DeleteAnswers` | internal/user/user.go:376-412 | deleting succeeds exactly for an account that exists, handle or no handle, and the account is gone then |
| `AccountSessions.AccountExistsIff` | internal/user/user.go:226-260 | an account exists from its first login until it is deleted |
| `AccountSessions.SessionsFollowLog` | internal/store/sessions.sql.go:50-54 | the sessions table holds exactly what was issued, less what deletions cascaded to and what purges found dead for longer than the retention |
| `AccountSessions.LinksFollowLog` | internal/store/login_tokens.sql.go:116-124 | the same of links |
| `AccountSessions.ReservationsFollowLog` | internal/store/deleted_handles.sql.go:14-17 | and of reservations |
| `Common.SameIgnoringCaseIff` | internal/store/users.sql.go:15-25 | two texts fold to one exactly when they agree letter by letter in either case |
| `AccountHandles.RunKeepsValid` | internal/user/user.go:315-412 | the account, handle, reservation and session invariants are kept by every run |
| `AccountStore.Store.constructor` | migrations/00001_users_and_login_tokens.sql:5-44 | the empty tables |
| `AccountStore.Store.UpsertUserByEmail` | internal/store/users.sql.go:320-324 | returns the account of the address ignoring case, unchanged, or a new pending one |
| `AccountStore.Store.RequestLogin` | internal/user/user.go:163-219 | count, refuse, retire and mint, with rollback, are together one RequestLogin step |
| `AccountStore.Store.CompleteLogin` | internal/user/user.go:226-260 | spend and sign up, with rollback, are together one CompleteLogin step |
| `AccountStore.Store.DeleteAccount` | internal/user/user.go:376-412 | reserve, delete links, delete the row are together one Delete step |
| `AccountStore.Store.Purge` | cmd/server/purge.go:32-53 | one turn of the loop is a prefix of the three purges, in order, as far as none fails |
| `RateLimiter.Limiter.constructor` | internal/web/ratelimit.go:101-111 | the configured limiter with no buckets |
| `RateLimiter.Limiter.Reap` | internal/web/ratelimit.go:155-165 | deletes exactly the expired ones of some eight entries, or of all if there are fewer, and nothing else |
| `RateLimiter.Limiter.Allow` | internal/web/ratelimit.go:115-146 | answers and updates as the specification does after some legal sweep, and never lets the map outgrow its capacity |
| `LimiterAnswers.ReferenceIsFair` | internal/web/ratelimit.go:138-145 | without eviction, from the empty map and in any order of readings, call j of a key is refused if and only if for some call i <= j of that key burst x refill + now_j - now_i < (admissions among calls i to j - 1, plus 1) x refill |
| `LimiterAnswers.FairIsUnique` | internal/web/ratelimit.go:138-145 | that rule settles every answer |
| `LimiterAnswers.AnswersFairlyIff` | internal/web/ratelimit.go:115-146 | the evicting, bounded limiter answers every call that is not refused for capacity by that rule, on readings that lag by at most `lag`, if and only if burst x refill + 2 x lag <= idleTTL + 1 tick |
| `LimiterAnswers.SteadyClientIsServed` | internal/web/ratelimit.go:27-31 | so a key that calls no more often than a token comes back is never refused |
| `RateLimiter.EvictionUnobservableIff` | internal/web/ratelimit.go:38-42 | for readings in order and every choice of evicted entries, all calls not refused for capacity are answered as by a limiter that never evicts, if and only if burst x refill <= idleTTL + 1 tick |
| `RateLimiter.LaggingEvictionIff` | internal/web/ratelimit.go:115-121 | for readings that reach the lock out of order, each at most `lag` behind the latest so far, the same holds if and only if burst x refill + 2 x lag <= idleTTL + 1 tick |
| `RateLimiter.LagIsObservable` | internal/web/ratelimit.go:138-145 | past that, a run of two keys tells the difference: drain one key's bucket at the latest reading, charge it at the oldest, let the other key's sweep take it, and drain it again |
| `RateLimiter.EvictionIsUnobservableFrom` | internal/web/ratelimit.go:113-165 | the refinement behind it, from any coupled pair of states, for lagging readings |
| `RateLimiter.CoupledReap` | internal/web/ratelimit.go:155-165 | a sweep keeps the coupling: what it drops is full in the reference at every reading that may still come |
| `RateLimiter.CoupledDecide` | internal/web/ratelimit.go:123-145 | a call that is heard gets one answer from both and keeps the coupling |
| `RateLimiter.ShortTTLIsObservable` | internal/web/ratelimit.go:38-42 | with a shorter idle TTL, a burst, one eviction and a second burst tell the difference |
| `RateLimiter.OutOfOrderEvictionShows` | internal/web/ratelimit.go:115-121 | so for every burst, refill and idle TTL some lag shows eviction |
| `RateLimiter.MapStaysBounded` | internal/web/ratelimit.go:54-57 | the map never exceeds its capacity, over every run |
| `RateLimiter.NewKeyMayBeRefusedIff` | internal/web/ratelimit.go:125-133 | some sweep turns a new key away if and only if the map is full and eight of its entries, or all if there are fewer, are within the idle TTL |
| `RateLimiter.RefusedAmongMany` | internal/web/ratelimit.go:125-133 | a key is only ever turned away when as many other keys as there is room for have called before |
| `RateLimiter.ActiveKeyKeepsItsBucket` | internal/web/ratelimit.go:155-165 | a key that holds a bucket still holds one while all readings, in any order, stay within the idle TTL |
| `RateLimiter.ActiveKeyIsHeard` | internal/web/ratelimit.go:125-132 | so each of its calls is heard, however full the map |
| `RateLimiter.ReferenceAdmissionBound` | internal/web/ratelimit.go:138-145 | without eviction, a window of a key's calls that ends with an admitted one has at most burst + elapsed / refill admissions, whatever the order of clock readings and the state it starts in |
| `RateLimiter.LaggingAdmissionBound` | internal/web/ratelimit.go:99-146 | the evicting limiter, on lagging readings, admits a key at most burst + elapsed / refill times in every window of every run: from the first reading to the last if that call is admitted, else to the latest so far, plus the lag if there was no room for the first call |
| `RateLimiter.AdmissionBound` | internal/web/ratelimit.go:99-146 | with readings in order, that is from the window's first reading to its last |
| `RateLimiter.AdmissionBoundIff` | internal/web/ratelimit.go:99-146 | for two keys and room for two buckets, every window of every run on readings that lag by at most `lag` keeps that bound if and only if burst x refill + 2 x lag <= idleTTL + 1 tick |
| `RateLimiter.LagRunBreaksBound` | internal/web/ratelimit.go:155-165 | past that, the run that shows eviction admits one key twice its burst in less time than the bound allows |
| `RateLimiter.PotentialStep` | internal/web/ratelimit.go:138-145 | each call lowers tokens - last / refill of a key by at least a token when it is admitted, evictions and lag included |
| `LoginLimits.DeployedLimitersHideEviction` | internal/web/ratelimit.go:27-75 | the three deployed limiters hide eviction exactly up to a lag of 250 s, 225 s and 200 s |
| `LoginLimits.DeployedLimitersAnswerFairly` | internal/web/ratelimit.go:27-75 | up to those lags, and no further, the deployed limiters answer by the rule: 5 and 20 s, 30 and 5 s, 20 and 10 s |
| `LoginLimits.ClientLiesInOneNetwork` | internal/web/ratelimit.go:248-272 | peers with equal per-client keys have equal network keys |
| `LoginLimits.HostsStandAlone` | internal/web/ratelimit.go:262-272 | an IPv4 address is its own client and its own network, and is the same in IPv6 form |
| `LoginLimits.BlocksAreShared` | internal/web/ratelimit.go:248-272 | two IPv6 addresses are one client if and only if their first 64 bits agree, and one network if and only if their first 48 do |
| `LoginLimits.KindsStandApart` | internal/web/ratelimit.go:240-272 | addresses of different kinds, and peers that are no address, never share a bucket |
| `LoginLimits.PassedIsAdmissions` | internal/web/router.go:148 | logins through the chain are the second limiter's admissions of the calls that reach it, whatever the order in which logins cross from one lock to the other |
| `LoginLimits.LoginsConserved` | internal/web/router.go:148 | of each client's requests, the logins that the first limiter admits, those and no others, cross to the second or are still on the way |
| `LoginLimits.NetworkLoginBound` | internal/web/ratelimit.go:167-174 | however a network splits its logins over clients and in whatever order they cross, at most 20 + elapsed / 10 s get through in any window, on readings that lag by at most 200 s |
| `LoginLimits.NetworkLoginBoundIff` | internal/web/ratelimit.go:27-75 | 200 s is exact: with any first limiter that has room for 42 clients, some run of logins on readings that lag any further lets a network past the bound |
| `LoginLimits.LoginsAreSeen` | internal/web/router.go:148 | every sequence of calls by two networks at the second limiter comes about, each login from a client of its own, as long as the first limiter has room for them |
| `PhotoSafety.RowsNameFiles` | internal/web/photo.go:119-141 | in every interleaving with crashes and power cuts, a key held by a row names a file on disk, and would survive a power cut now |
| `PhotoSafety.FilesConserved` | internal/web/photo.go:272-280 | the disk is the disjoint union of rows' keys, files of requests in flight and leaks, with at most one leak per crash, failed removal, late Save failure or file a power cut brought back |
| `PhotoSafety.IdleDiskMatchesRows` | internal/web/photo.go:58-62 | with no mishap and nothing in flight, the disk holds exactly the rows' keys |
| `PhotoSafety.NothingIsShared` | internal/web/photo.go:145-187 | no two accounts hold one photo, and at most one photo is processed at a time |
| `PhotoSafety.SlotIsNotLost` | internal/web/photo.go:176-187 | whoever holds the slot is still processing and can give it back |
| `PhotoSafety.ReplacedKeyNeverReturns` | internal/store/users.sql.go:214-220 | a key that leaves the table never names anybody's photo again |
| `PhotoEffects.RemovalTakesPhoto` | internal/store/users.sql.go:214-220 | in every reachable state, removing a photo empties its row and nothing else, keeps the time of the upload, and leaves the request with the file to delete, which no row names |
| `PhotoEffects.DeletionTakesPhoto` | internal/web/account.go:56-71 | deleting an account removes its row and no other, and leaves the request with its photo's file to delete |
| `PhotoEffects.DeletedFileStaysDown` | internal/web/photo.go:272-280 | the deletion takes that one file off the disk, and no row names it in any continuation |
| `PhotoEffects.TakenDownStaysDown` | internal/web/photo.go:260-270 | nor does any from the moment a request is left with it |
| `PhotoEffects.DeletedAccountStaysGone` | internal/web/account.go:56-71 | a deleted account's row never comes back |
| `PhotoEffects.CommitPublishesIff` | internal/store/users.sql.go:267-278 | an upload's photo and time are in its row after the commit if and only if there was no error, the account exists, is on the allowlist and has not uploaded on that day or a later one; the replaced photo, or else the new one, is left to the request to delete; no other row changes |
| `PhotoEffects.UploadBeginsIff` | internal/user/user.go:115-125 | an upload begins for an allowed account that has not uploaded on that day |
| `PhotoEffects.RequestsKeepTheirUpload` | internal/web/photo.go:81-141 | from its start to its commit a request is for one account, one time and one file |
| `PhotoEffects.NothingElseChangesRows` | internal/web/photo.go:119-141 | no other step of a request changes the table |
| `PhotoSafety.StepKeepsValid` | internal/web/account.go:56-71 | every step of every request, crash and power cut keeps the ownership invariant |
| `PhotoSafety.RunKeepsValid` | internal/web/photo.go:63-143 | so every run keeps it |
| `PhotoProtocol.DayStartIsBoundary` | internal/web/photo.go:47-53 | dayStart is the midnight at or before t, and earlier instants are exactly those of earlier days |
| `PhotoProtocol.DayBeginsAtThree` | internal/web/photo.go:47-53 | the day begins at 03:00 UTC |
| `PhotoDays.OnePhotoPerDay` | internal/store/users.sql.go:267-278 | an account's successful uploads fall on strictly increasing Argentine days in commit order, with removals between and clock readings out of order |
| `PhotoDays.EarlyCheckAgreesIff` | internal/user/user.go:115-125 | for an allowed account the early check refuses exactly what the statement refuses, if and only if the last upload is not on a later day |
| `PhotoDays.EarlyCheckAgrees` | internal/web/photo.go:81-86 | in particular when the last upload is not after now |
| `PhotoStore.Store.constructor` | internal/photostore/photostore.go:75-80 | an empty directory |
| `PhotoStore.Store.Save` | internal/photostore/photostore.go:82-137 | for each fault: whole file or none, success only after the directory sync, a temporary file left only when its removal fails |
| `PhotoStore.Store.Remove` | internal/photostore/photostore.go:149-160 | removes the file and nothing else; a missing one is no error |
| `PhotoStore.KeysAreNames` | internal/photostore/photostore.go:35-73 | a key is valid if and only if it is 26 characters of the lower-case base32 alphabet, so it names nothing outside the directory |
| `PhotoStore.SaveFollowsProtocol` | internal/photostore/photostore.go:117-136 | each outcome of Save is a path of enabled protocol steps with the same effect on the directory |
| `Exif.ReadOrientation` | internal/photo/orientation.go:17-54 | on every byte string: terminates, reads in bounds, returns 1..8, and is the recursive walk |
| `Exif.SkipFill` | internal/photo/orientation.go:26-29 | stops at the first byte that is not fill |
| `Exif.ReadTiffOrientation` | internal/photo/orientation.go:56-99 | the loop over directory entries is the recursive scan |
| `Exif.WalkSegment` | internal/photo/orientation.go:22-52 | a written segment is read as Exif or skipped whole, with any fill bytes |
| `Exif.WalkSegments` | internal/photo/orientation.go:22-52 | any list of other segments is skipped |
| `Exif.TiffReads` | internal/photo/orientation.go:58-99 | a written TIFF block, in either byte order, with any gap and trailer, reads as what its fields mean |
| `Exif.ReaderInvertsWriter` | internal/photo/orientation.go:17-99 | a written file reads as what the fields of its first Exif segment mean |
| `Exif.FirstOrientationComesBack` | internal/photo/orientation.go:85-96 | the first orientation field, written SHORT v with v in 1..8, is what the fields mean, whatever stands before and after |
| `Exif.FirstOrientationDecides` | internal/photo/orientation.go:85-96 | whatever that field holds: a SHORT from 1 to 8 counts, anything else reads as 1 |
| `Exif.NoOrientationIsUpright` | internal/photo/orientation.go:80-99 | without such a field the answer is 1 |
| `Exif.SearchEndsUpright` | internal/photo/orientation.go:22-54 | past the scan, a byte that begins no marker, or a length that cannot be, nothing is looked at and the answer is 1 |
| `Exif.OtherBlocksAreUpright` | internal/photo/orientation.go:58-72 | so it is for a block without a TIFF mark |
| `Exif.WrittenOrientationIsRead` | internal/photo/orientation.go:13-99 | so a file written with orientation v reads back as v |
| `Reorient.Orient8` | internal/photo/photo.go:170-207 | the result is the source displayed under the orientation, pixel for pixel and in bounds; other values return the source itself |
| `Reorient.CopyRow` | internal/photo/photo.go:183-205 | one more row of the destination is in place |
| `Reorient.OrientedIffSides` | internal/photo/photo.go:170-207 | a picture is displayed under an orientation if and only if its stored row 0 and column 0 are shown where TIFF 6.0, Orientation, says: 1 top and left, 2 top and right, 3 bottom and right, 4 bottom and left, 5 left and top, 6 right and top, 7 right and bottom, 8 left and bottom |
| `Reorient.PixelIsShownAt` | internal/photo/photo.go:184-200 | so, for each of the eight, where every stored pixel is shown |
| `Reorient.SourceInverts` | internal/photo/photo.go:184-200 | each map is undone by its inverse, on every size: 6 and 8 undo each other, the rest themselves |
| `Reorient.SourcesCompose` | internal/photo/photo.go:184-200 | two maps in a row are the one the table names, sizes included |
| `Reorient.SymmetriesFormAGroup` | internal/photo/photo.go:170-200 | that table is a group with those inverses |
| `Reorient.OrientationsCompose` | internal/photo/photo.go:182-205 | on buffers: two orientations in a row are the composed one |
| `Reorient.InverseUndoes` | internal/photo/photo.go:182-205 | on buffers: an orientation and its inverse give back every byte |
| `Reorient.EveryPixelLandsOnce` | internal/photo/photo.go:182-205 | every source pixel lands at exactly one destination pixel |
| `Reorient.OrientedIsUnique` | internal/photo/photo.go:182-205 | source and orientation determine the destination byte for byte |
| `Scaling.ScaledSizeIsSound` | internal/photo/photo.go:114-123 | both sides at least 1 and never larger; an oversized long side becomes 1200; the other is the rounded quotient, or 1 if that was 0 |
| `Scaling.ShrinkIsNearest` | internal/photo/photo.go:119-120 | the rounded quotient is within half a unit of the exact one, upwards from the very middle |
| `Scaling.ScaleCommutesWithSwap` | internal/photo/photo.go:102-104 | scaling then turning gives the size of turning then scaling |
| `Scaling.ScaleIsIdempotent` | internal/photo/photo.go:114-123 | a scaled size is left alone |
| `Scaling.EstimateCannotOverflow` | internal/photo/photo.go:125-135 | behind the side limit every intermediate value stays below 2^63 |
| `Scaling.AcceptedFits` | internal/photo/photo.go:83-90 | what passes the gate has an output of at most 1200 x 1200 pixels and fits the budget with its output's bytes on top |
| `Scaling.SquareFitsIff` | internal/photo/photo.go:86-90 | for each colour model, the largest square picture that passes the gate: 6040 at one byte a pixel, 5445 at two, 5020 for a JPEG, 4694 at four, 3870 at eight or unknown |
| `Scaling.PixelLimitIsImplied` | internal/photo/photo.go:86-90 | the limit on pixels never decides: whatever exceeds it within the sides exceeds the memory budget |
| `Scaling.CommonSizes` | internal/photo/photo_test.go:178-200 | the sizes that the tests name, and the limit on a side |
| `LineWrap.WrapLines` | internal/ogcard/render.go:262-293 | the loop yields exactly the greedy lines, for any maxLines |
| `LineWrap.TruncateWithEllipsis` | internal/ogcard/render.go:295-304 | keeps the longest prefix that fits beside the ellipsis |
| `LineWrap.WrapIsGreedy` | internal/ogcard/render.go:262-304 | line by line: as many runes as fit and at least one, and on the last allowed line, if text is left over, as many as fit beside the ellipsis |
| `LineWrap.FitSize` | internal/ogcard/render.go:206-224 | the largest tried size that fits, else the smallest, unmeasured; or the first face that cannot be built |
| `LineWrap.AtMostMaxLines` | internal/ogcard/render.go:251-252 | never more than maxLines lines, and at least one for a text |
| `LineWrap.LinesSpellTheText` | internal/ogcard/render.go:271-292 | uncut, the lines spell the text; cut, a prefix of it and the ellipsis |
| `LineWrap.LinesFit` | internal/ogcard/render.go:274-282 | every line fits unless it is a single rune |
| `LineWrap.EllipsisOnlyIfNeeded` | internal/ogcard/render.go:284-287 | when the rest of a fitting line fits and each rune fits, there is an ellipsis if and only if no cut into maxLines fitting lines exists |
| `LineWrap.UncutMeansCanCut` | internal/ogcard/render.go:284-289 | for every measure in which each rune fits, text that gets no ellipsis has a cut into fitting lines |
| `LineWrap.KerningDefeatsGreedy` | internal/ogcard/render.go:274-287 | a face that does not meet the condition, advances 5, 1, 3, 4 and a kern of -2 between the second and third rune, gets an ellipsis at width 6 though 0 and 123 would fit on two lines |
| `LineWrap.GreedyUsesFewestLines` | internal/ogcard/render.go:262-293 | then no cut into fitting lines uses fewer lines |
| `LineWrap.FaceIsHereditaryIff` | internal/ogcard/render.go:275 | for a face that measures text by advances and pair kerns, the rest of a fitting line fits at every width if and only if no advance is negative and no kern takes back more than the advance before it |
| `LineWrap.FaceWrapsBest` | internal/ogcard/render.go:262-293 | with such a face greedy wrapping uses the fewest lines and cuts text off only when every cut does |
| `Hex.ParseHexLowers` | internal/style/style.go:101-118 | parse-then-format is lower-casing and idempotent |
| `Hex.ParseAcceptsIff` | internal/style/style.go:99-112 | a colour is # and six hex digits in either case, and nothing else |
| `Hex.DigitsOfNumber` | internal/style/style.go:113-117 | formatting the number of six hex digits gives the digits back in lower case |
| `Hex.NumberOfDigits` | internal/style/style.go:113-117 | parsing formatted digits gives the number back |
| `Hex.SameColorIffSameNumber` | internal/style/style.go:109-118 | two spellings are one colour if and only if they spell one number |
| `Hex.CanonicalIffLower` | internal/style/style.go:99-118 | what ParseHex returns unchanged is exactly # and six lower-case hex digits |
| `StyleModel.CollectMeans` | internal/user/style.go:55-70 | going through the slots keeps exactly the chosen colours and fails exactly on a rejected one |
| `StyleModel.CollectIs` | internal/user/style.go:55-70 | so a source that offers exactly a map's slots is collected into that map |
| `StyleModel.DefaultsAreColors` | internal/style/style.go:77-97 | every slot has a well-formed default under every known mood |
| `StyleCss.DefaultsMirrorTheme` | internal/style/style.go:77-97 | every slot's default under every mood is what internal/web/static/theme.css gives its property |
| `StyleEditor.ReadDraft` | internal/web/style.go:64-98 | the loop is the slot-by-slot reading of the form |
| `StyleForms.DraftAcceptedIff` | internal/web/style.go:64-116 | a form is accepted if and only if each of c_bg to c_barfg was sent once and is a colour, and f_head and f_body were sent once and are in the registry, except what is reset |
| `StyleForms.DraftSays` | internal/web/style.go:64-116 | each slot and font of the draft is what its own field sent, in lower case; what was reset or sent as the default is default; the box is the absence of own_mood_box |
| `StyleEditor.WritePreviewQuery` | internal/web/style.go:218-237 | the loop writes exactly the customised slots and fonts |
| `StyleForms.PreviewQuerySays` | internal/web/style.go:218-237 | the query has each customised slot and font under its own name, and nothing that is default |
| `StyleEditor.ReadQuery` | internal/web/style.go:285-329 | the loops are the field-by-field reading of the query |
| `StyleForms.QueryAcceptedIff` | internal/web/style.go:285-329 | a query is read as a style if and only if each known field it has is there once and valid |
| `StyleForms.QuerySays` | internal/web/style.go:285-329 | each slot and font of the style is what its own field says, and the box is own=1 |
| `StyleEditor.WritePreviewFields` | internal/web/style.go:241-260 | the loop writes one field per slot and font, and the box |
| `StyleEditor.QueryRoundTripIff` | internal/web/style.go:285-329 | styleFromQuery inverts previewQuery if and only if the style is well formed |
| `StyleEditor.QueryIsWellFormed` | internal/web/style.go:285-329 | whatever a query holds, the style read from it is well formed |
| `StyleEditor.DraftIsNormal` | internal/web/style.go:64-116 | an accepted draft is well formed and keeps nothing that equals the mood's default |
| `StyleEditor.DraftSurvivesQuery` | internal/web/style.go:205-237 | so its preview query reads back as the draft |
| `StyleEditor.PostedPreview` | internal/web/style.go:241-260 | the bar's fields have distinct names and post each value once |
| `StyleForms.PreviewBarSays` | internal/web/style.go:241-260 | under their own names, with the default where the style says nothing |
| `StyleEditor.PreviewBarCarriesDraft` | internal/web/style.go:239-260 | posting the bar's fields of a well-formed style under its mood reads back as the style's normal form |
| `StyleEditor.UntouchedFormIsDefault` | internal/web/style.go:64-116 | a form posted as it is shown for a default style is accepted as the default style, under every mood |
| `StyleEditor.NormalFormIsNormal` | internal/web/style.go:79-89 | normal forms are normal, normalising twice is normalising once, and only normal styles are their own |
| `StyleEditor.AcceptedDraftComesBack` | internal/web/style.go:239-260 | an accepted draft, whatever was reset, comes back exactly from the bar |
| `StyleTable.Table.FillColors` | internal/user/style.go:102-109 | in whatever order the map is walked: every column is the parsed colour of its slot, or the style is invalid |
| `StyleTable.Table.FillFonts` | internal/user/style.go:110-122 | known fonts fill their columns, default ones stay NULL, an unknown one makes the style invalid |
| `StyleTable.Table.SetStyle` | internal/user/style.go:87-136 | invalid exactly when a key, colour or font is; otherwise a row exists if and only if the style is not default, holds it, reads back as it, and no other row changes |
| `StyleTable.Table.GetStyle` | internal/user/style.go:45-74 | the loop is the slot-by-slot reading of the row; no row is the zero style |
| `StyleTable.RowReadsBack` | internal/user/style.go:45-85 | a stored style reads back with its colours lower-cased |
| `StyleTable.RowSays` | internal/user/style.go:45-74 | whatever a row holds, its valid colours and its fonts still in the registry are read, and the rest is default |
| `StyleTable.HeldColumns` | internal/user/style.go:17-38 | the columns that hold a style's colours, by name |
| `StyleTable.HeldRowIsUnique` | internal/user/style.go:96-122 | exactly one row holds a style |
| `StyleTable.ColumnsAreSlots` | internal/user/style.go:17-38 | the keys with a column are exactly the slots |
| `StyleTable.ColumnsAreSeparate` | internal/user/style.go:17-38 | writing a slot's column changes that slot alone |
| `StyleTable.WellFormedSurvives` | internal/user/style.go:87-91 | a well-formed style is accepted and stored unchanged |
| `StyleCss.Css` | internal/style/css.go:62-93 | the builder's loops print exactly the sheet of the style |
| `StyleCss.PrintRule` | internal/style/css.go:86-92 | the printing loop writes every declaration on its line |
| `StyleCss.SameSheetIffSameLook` | internal/style/css.go:51-93 | two styles print equal bytes if and only if their valid colours and known fonts agree |
| `StyleCss.DeclaredIffChosen` | internal/style/css.go:62-85 | behind it: a declaration is in the list if and only if the style gives the property that value |
| `StyleCss.ColorsArePrinted` | internal/style/css.go:62-70 | on the printed bytes: each slot's colour is on a line under its property, --s-bg to --s-bar-fg, and no other value is |
| `StyleCss.FontsArePrinted` | internal/style/css.go:71-85 | the heading font's stack is on a line under --s-font-head and the body font's under --s-font-body, exactly when the registry has them; --s-text-soft exactly when the text or the sheet has a colour |
| `StyleCss.SheetBreaks` | internal/style/css.go:86-92 | the sheet's lines are the opening, the declarations and the closing brace |
| `StyleCss.EditorShowsThePage` | internal/web/style.go:239-260 | the colour that the editor shows for a slot is the one the page has under both sheets |
| `StyleCss.LinesDiffer` | internal/style/css.go:86-92 | different declarations print different text |
| `StyleCss.OnlyOurTextIsPrinted` | internal/style/css.go:55-59 | every printed value is a formatted colour, a registered stack or the soft-text expression |
| `StyleCss.EmptySheetIff` | internal/style/css.go:51-52 | a well-formed style prints nothing if and only if it sets no colour and no font |
| `StyleCss.DraftIsKept` | internal/web/style.go:220-329 | a draft the form accepts is acceptable to the table, stored as it is, and previewed with its own sheet |
| `StyleCss.Publish` | internal/web/style.go:185-200 | after publishing any accepted draft, the default one included, the sheet of what is stored is byte for byte the one that was previewed; the table rejects exactly what the form rejects |

## Left out

- HTTP, routing, middleware, cookies, templates, SMTP, logging, configuration: only the order of steps in the photo upload, photo removal and account deletion handlers is modelled.
- Postgres below the transaction: each transaction is atomic, unique indexes and checks are guards, and the advisory lock serialises requests for one address; nothing is claimed about statements interleaving inside a READ COMMITTED transaction.
- An error from SetPhoto is taken to mean that it did not commit.
- float64 rounding in the limiter: its arithmetic is exact here. Its idle TTL is a constant and not negative.
- The mutex of the limiter: calls are atomic in lock order; that a clock is read before the lock is modelled by readings that lag.
- Input gates (address normalising, handle syntax, plausible tokens): they are single-pass predicates; the model starts behind them.
- Randomness and digests: tokens, session secrets, ids and photo keys are fresh values.
- Display names, moods, guestbook, statistics, random pages: one-statement wrappers that would add only easy members.
- Columns that no modelled decision reads: tier, locale, created_at of accounts, photo width and height.
- The photo key that DeleteAccount returns is modelled in the photo protocol, not in the account tables.
- AccountLogin.BudgetHolds: counts from the last deletion of the account, because deleting it deletes its links.
- RateLimiter.LaggingEvictionIff: a limiter with room for a single bucket is covered for readings in order only (`EvictionUnobservableIff`); the deployed ones have 65536.
- RateLimiter.AdmissionBoundIff: a limiter with room for a single bucket keeps the bound on the same condition (`LaggingAdmissionBound`); that the condition is exact for it too is not shown.
- PhotoSafety.FilesConserved: temporary files of failed Saves are not in the protocol's disk; `PhotoStore.Store.Save` says when one is left.
- LineWrap.EllipsisOnlyIfNeeded: a sufficient condition on the face; `FaceIsHereditaryIff` says which faces meet it and `KerningDefeatsGreedy` gives one that does not and fails. Hinting and rounding of glyphs are part of the advances and kerns.
- Runes: text is a sequence of runes; converting it to and from UTF-8 is not modelled.
- Image decoding and encoding, resampling, font rasterising and the PNG card.
- net/url encoding of the preview's query and of forms: values are maps from field to values.
- The font list and the moods' colours as data: `Theme.Valid` asks for distinct keys, distinct one-line stacks, the two default fonts and well-formed mood colours, and `StyleModel.MinimalThemeIsValid` gives one such theme.
- The time of the last publish in a style: it is a column of the row, and `Style.Equal` ignores it.
