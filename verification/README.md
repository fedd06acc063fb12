# Verified models of Zenod's state machines

This Dafny project models the small state machines and loops on which the repository's guarantees rest, and proves what
they promise over whole runs. `dafny verify dfyconfig.toml` checks all of it.

| file | what it models |
|---|---|
| `ExactArgs.dfy`, `JsonText.dfy`, `ExactTies.dfy` | the canonical text of tool arguments, a parser that undoes it, its letters, and what tied keys cost |
| `ApprovalTokens.dfy`, `PeerGuard.dfy`, `PeerPolicy.dfy`, `PeerTokens.dfy` | the table of standing approvals, the guard in front of a peer's mutating tools, runs of both with saving, loading and restarts, and which calls run, are held or are refused |
| `RateLimit.dfy`, `RateLimitRuns.dfy`, `RateLimitBounds.dfy`, `RateLimitExact.dfy` | the token bucket with lazy refill over a swept, recency-ordered map of heap objects, and its decisions told from its past |
| `TenantStore.dfy`, `TenantBook.dfy` | the in-memory credential store and its three maps, and the plain book that they keep |
| `OAuth.dfy`, `OAuthRuns.dfy`, `OAuthRequests.dfy` | consent, authorization codes, tokens and refresh, and which requests get them |
| `ReplyGate.dfy`, `ReplyEvidence.dfy`, `ReplyOrder.dfy` | the depth- and width-limited evidence traversals, what they find, and in which order |
| `KeeperEnv.dfy`, `KeeperLines.dfy`, `KeeperBytes.dfy`, `KeeperCheck.dfy`, `KeeperAlerts.dfy` | reading and rewriting environment files, what is kept byte for byte, the check before they are sent, and the alert planner |
| `ErrorHistory.dfy`, `ErrorList.dfy`, `HealthRuns.dfy`, `HealthLists.dfy` | the health aggregator: error histories with a shared object, the list that shares it, transitions, and the lists over runs |
| `Throttle.dfy` | the sliding-window send limiter, one per tenant |
| `DeployEnv.dfy`, `DeployProtocol.dfy`, `DeployDispatch.dfy` | the environment rewrite, the crash-tolerant image switch, and what was seen before a dispatch and a receipt |
| `Timeline.dfy` | hourly statuses, segments and polyline runs |
| `Basics.dfy`, `Strings.dfy` | options, results, filtering; trimming and Python's line splitting |

Code that updates objects in place is modelled by classes and methods, each proved against a function on values; the
results about runs are lemmas about those functions. Regular expressions, URL parsing, hashing, locale comparison and
random tokens are parameters. Time is a parameter of each step. The files `JsonText`, `PeerPolicy`, `PeerTokens`,
`RateLimitExact`, `TenantBook`, `OAuthRequests`, `ReplyEvidence`, `ReplyOrder`, `KeeperLines` and `DeployDispatch` say what the
definitions of the models mean in other words: the literal names, numbers, texts and conditions of the source.

Where the code does not do what its documentation says, the model follows the code, and a lemma says exactly when the
two agree:

- The doc comment of `sweep` calls dropping a full bucket equivalent to its absence. The sweep runs before the charge, so
  when it reaches the bucket just touched the charge is lost, and the hard cap drops buckets that are not full.
  `LosslessRunsAgree` excludes both cases and `LossyTakeShows` proves that each can be observed; `LossyTakeIsReached` and
  `HardCapIsReached` give runs that get there. `LossyWindowBound` says what is still guaranteed on every run.
- Rows of approvals are re-hydrated at the start of every turn and saved at its end, but not when the turn fails in
  between. A row that was saved before its token was spent brings the token back to life (`OldRowIsSpentTwice`). Loading
  is safe exactly when nothing after the save has ended a live token of the row (`LoadIsSafeExactly`), and the runs load
  rows under that condition.
- `canonicalExactArgs` sorts keys with a locale comparison; where that has ties, key order shows. The match decides
  equality up to key order for exactly the values whose objects have none (`MatchDecidesExactly`), and for all values
  exactly when there are none (`TiesExposeKeyOrder`).
- The three maps of the credential store can part in two ways: `put` with the token of a profile credential, and a profile
  key that two tenants have, which a NUL in a tenant id allows. `RunAgreesExactly` gives the operations that keep them in
  agreement, `KeysCollideExactly` the ids that can share a key, `CollisionIsReached` what is lost then.
- `set_env_lines` promises every other line byte for byte. Line breaks other than newlines become newlines, an open last
  line is closed when something is appended, and one empty last line can be lost: `OthersKeptExactly` says exactly when
  the promise holds, `BreakIsChanged` and `LineIsLost` are texts for which it does not. An update is read back exactly
  when it can be written on one line (`RoundTrip`); one that cannot may still pass the check (`CheckedRewrite`).
- The environment rewrite of the image switch works between newlines but is checked line by line. They agree exactly when
  nothing but a closing break follows the entry (`DriftCheckAccepts`).
- The list of a component's errors is said to hold the last distinct ones. It can lack the latest error itself: when that
  was raised after a copy through JSON had parted it from its place, or when ten others came at its very time, and never
  otherwise (`ListedExactly`).

## Model

| member | source | states |
|---|---|---|
| ExactArgs.StringRoundTrip | packages/core/src/approvalTokens.ts:111-121 | the string reader gives back every sequence of UTF-16 units, lone surrogates included, from its escaped form and whatever follows the closing quote (section 7 of RFC 8259) |
| ExactArgs.RoundTrip | packages/core/src/approvalTokens.ts:111-121 | the parser reads back the meaning of every printed value, nested arrays, objects and `undefined` included, in front of any text that does not continue a number |
| ExactArgs.TextDeterminesMeaning | packages/core/src/approvalTokens.ts:111-125 | equal canonical texts come from values that are equal up to key order, whatever comparisons the two were sorted by |
| ExactArgs.MeaningDeterminesText | packages/core/src/approvalTokens.ts:114-121 | values that are equal up to key order print to the same text when no two different keys of one object compare as equal |
| ExactArgs.MatchIsSameMeaning | packages/core/src/approvalTokens.ts:123-125 | for a value in whose objects no two different keys compare as equal, the exact match holds exactly when the other value is equal to it with unordered keys |
| JsonText.PrintsJson | packages/core/src/approvalTokens.ts:111-121 | the canonical text in letters: it is the JSON text of the value, word for word, with the members of every object sorted by key (section 2 of RFC 8259) |
| JsonText.EscapesAre | packages/core/src/approvalTokens.ts:112 | the escape of each UTF-16 unit: the short ones, four lower-case hexadecimal digits for other controls and surrogates, and the unit itself for the rest |
| JsonText.EscapedFirst | packages/core/src/approvalTokens.ts:112 | units are escaped one by one, but a surrogate pair is kept |
| JsonText.NumeralIs | packages/core/src/approvalTokens.ts:120 | the texts of numbers are made of digits, signs, points and exponents and begin with a digit or a minus sign |
| ExactTies.MatchDecidesExactly | packages/core/src/approvalTokens.ts:115-125 | for any total preorder and any value: the exact match decides equality with unordered keys against every other value exactly when no two different keys of one object in the value compare as equal |
| ExactTies.TieShows | packages/core/src/approvalTokens.ts:115-118 | a value with a tie at any depth has another of the same meaning that does not match it |
| ExactTies.SortedBefore | packages/core/src/approvalTokens.ts:115-118 | the sort is stable: entries whose keys are in order or tie keep their order |
| ExactTies.TiesExposeKeyOrder | packages/core/src/approvalTokens.ts:115-118 | key order is irrelevant to the match for all values exactly when the locale comparison has no ties between different keys |
| ApprovalTokens.ApprovalTokens.LiveTokens | packages/core/src/approvalTokens.ts:40-46 | returns the unexpired tokens of a conversation, and leaves exactly them in the table, or no entry |
| ApprovalTokens.ApprovalTokens.RegisterStandingApproval | packages/core/src/approvalTokens.ts:74-95 | registers the cleaned arguments for 15 minutes in place of the token of the same owner and tool, and only for a substantive request that was held |
| ApprovalTokens.ApprovalTokens.RegisterApprovalToken | packages/core/src/approvalTokens.ts:98-100 | a legacy token replaces all tokens of the conversation |
| ApprovalTokens.ApprovalTokens.RegisterOutboundComposeApprovalToken | packages/core/src/approvalTokens.ts:102-104 | an outbound token replaces all tokens of the conversation |
| ApprovalTokens.ApprovalTokens.ResolveStandingApproval | packages/core/src/approvalTokens.ts:134-159 | allows only on exactly one matching live owned token, removes exactly that one, and otherwise only prunes |
| ApprovalTokens.ApprovalTokens.HasValidApprovalToken | packages/core/src/approvalTokens.ts:106-109 | whether a live token lets the draft through, with the expired ones pruned |
| ApprovalTokens.ApprovalTokens.CancelStandingApprovals | packages/core/src/approvalTokens.ts:161-165 | removes all tokens of the conversation and says whether one was live |
| ApprovalTokens.ApprovalTokens.ConsumeApprovalToken | packages/core/src/approvalTokens.ts:167-169 | removes all tokens of the conversation |
| ApprovalTokens.ApprovalTokens.ApprovalTokenSnapshot | packages/core/src/approvalTokens.ts:176-178 | the copy holds exactly the live tokens |
| ApprovalTokens.ApprovalTokens.HydrateApprovalTokens | packages/core/src/approvalTokens.ts:181-185 | the conversation's tokens become the live ones of the row, whatever was there |
| ApprovalTokens.LiveTwice | packages/core/src/approvalTokens.ts:157 | reading the live tokens a second time at the same moment finds the same ones |
| PeerGuard.PeerMutationGuardFailure | packages/core/src/taskingPolicy.ts:202-245 | the guard's verdict and the table after it, for every context and request |
| PeerGuard.UsesAreJustifiedAndSingle | packages/core/src/taskingPolicy.ts:202-245 | on every run that loads a row only while it is intact, each call let through by approval has an earlier grant of the same conversation, nonempty owner, tool and arguments, under 15 minutes old and not spent, cancelled or replaced in between; and no grant serves twice |
| PeerGuard.PassOnlyByConsuming | packages/core/src/taskingPolicy.ts:210-228 | on those runs a connected call whose profile is not trusted, private, own-tenant and without money, or that lacks a hint or has a destructive or open-world one, passes only by consuming a justified registration |
| PeerGuard.NeverAmbiguous | packages/core/src/taskingPolicy.ts:219 | in a reachable state the ambiguous verdict is never given |
| PeerGuard.RunKeeps | packages/core/src/approvalTokens.ts:74-185 | at most one live token for each owner and tool, and every usable one standing, after any run of calls, results that a peer held, cancellations, saves, loads of intact rows, and restarts |
| PeerGuard.StepKeeps | packages/core/src/llm/aisdk.ts:1767-1769 | every event keeps this, a registration of a connected peer's own refused result included |
| PeerGuard.LoadIsSafeExactly | packages/core/src/engine/engine.ts:472-481 | loading a row is safe exactly when nothing after it was saved has ended one of its live usable tokens: otherwise one call is let through unjustified |
| PeerGuard.OldRowIsSpentTwice | packages/core/src/engine/engine.ts:474 | a run from the empty system in which it is not: an operation is held and saved, approved and run, the old row is loaded as after a turn that failed before its save, and the same approval runs it again |
| PeerGuard.LoadedRowPasses | packages/core/src/engine/engine.ts:472-481 | a live token of any loaded row lets its call through, spent or not, for any request that selects it |
| PeerGuard.OnlyMatchIsUsed | packages/core/src/approvalTokens.ts:144-158 | a live owned token is the one consumed by the call that restates it exactly when the request quotes no text or one that its arguments hold; otherwise the answer is mismatch |
| PeerPolicy.UnapprovedCall | packages/core/src/taskingPolicy.ts:135-178 | a call that is not an approval: it passes if and only if it is not connected, or the profile is trusted, private, own-tenant and without money, all three hints are there and the destructive and open-world ones are false; its risk is unknown if and only if a part of the profile or a hint is missing or untrusted; it is held if and only if neither is the case, it has a conversation, and an argument outside the internal keys says something |
| PeerPolicy.HeldCall | packages/core/src/approvalTokens.ts:74-95 | a held call registers one token for its connection and tool, in place of the live one for both: its arguments are exactly those of the call whose key is not internal, in order, and it lasts fifteen minutes; all other live tokens stay |
| PeerPolicy.FilteredAt | packages/core/src/approvalTokens.ts:83 | the stored entries are those of the call at the rising positions whose key is not internal |
| PeerPolicy.ApprovedCall | packages/core/src/taskingPolicy.ts:210-223 | a call that is an approval: nothing is pending if and only if the conversation has no usable token, it passes if and only if a usable token is for this connection, this tool and these arguments and holds the text that the request quotes, and that one token is used up |
| PeerPolicy.HeldThenApproved | packages/core/src/taskingPolicy.ts:202-245 | on every run: an operation without internal keys that the guard or the peer held, restated with approval within fifteen minutes, passes and uses its own registration, whatever happens in between that does not end the registration or replace the table |
| PeerPolicy.StaysThroughRun | packages/core/src/approvalTokens.ts:74-185 | a live owned token stays in the table through every run that does not end it |
| PeerTokens.AmbiguousExactly | packages/core/src/approvalTokens.ts:144-158 | for every table, reachable or not: an approval is ambiguous if and only if two usable tokens of the conversation answer the call, and allowed if and only if exactly one does |
| PeerTokens.NothingUsableAfter | packages/core/src/approvalTokens.ts:161-169 | cancelling, consuming and the tokens without an owner leave nothing usable in their conversation and everything in the others; a restart leaves nothing at all |
| PeerTokens.RowIsSnapshot | packages/core/src/approvalTokens.ts:176-185 | a saved row holds exactly the live tokens, and loading makes the conversation's tokens exactly those of the row that are still live |
| PeerTokens.LegacyLetsThrough | packages/core/src/approvalTokens.ts:98-109 | for fifteen minutes after a draft was held in the old way, drafts of its tool and its hash are let through in the conversation and no others; after an outbound message, all are |
| RateLimit.TokenBucketLimiter.Take | packages/mcp-chassis/src/rateLimit.ts:31-47 | one take on the heap, with the charge through the alias after the sweep, does what the list specification says |
| RateLimit.TokenBucketLimiter.Touch | packages/mcp-chassis/src/rateLimit.ts:35-40 | the bucket is refilled up to the burst and moves to the recent end |
| RateLimit.TokenBucketLimiter.Sweep | packages/mcp-chassis/src/rateLimit.ts:50-61 | drops a prefix: the leading full buckets, then the oldest beyond 20,000 |
| RateLimit.TokenBucketLimiter.DropFullBuckets | packages/mcp-chassis/src/rateLimit.ts:52-55 | the first loop stops at the first bucket that is not full |
| RateLimit.TokenBucketLimiter.CapBuckets | packages/mcp-chassis/src/rateLimit.ts:56-60 | the second loop leaves the newest 20,000 |
| RateLimit.TokenBucketLimiter.Charge | packages/mcp-chassis/src/rateLimit.ts:42-45 | the charge reaches the map only if the touched bucket is still in it |
| RateLimitRuns.LosslessRunsAgree | packages/mcp-chassis/src/rateLimit.ts:31-61 | with a clock that does not go back, on every run where no sweep reaches the touched bucket and the hard cap never fires, every decision for every key is that of a limiter that never drops a bucket |
| RateLimitRuns.MapIsBounded | packages/mcp-chassis/src/rateLimit.ts:50-61 | after every take of every run the map holds at most 20,000 buckets |
| RateLimitRuns.TakeKeeps | packages/mcp-chassis/src/rateLimit.ts:31-47 | distinct keys, no bucket from the future, between nothing and a burst in each, and a surviving bucket is charged |
| RateLimitRuns.LosslessTake | packages/mcp-chassis/src/rateLimit.ts:31-61 | a lossless take changes what no other key has |
| RateLimitRuns.AgreeTake | packages/mcp-chassis/src/rateLimit.ts:31-61 | a lossless take keeps the agreement on the tokens of every key |
| RateLimitBounds.LossyTakeShows | packages/mcp-chassis/src/rateLimit.ts:41-61 | the converse: after a lossy take from an agreeing state some continuation is decided differently |
| RateLimitBounds.LossyTakeIsReached | packages/mcp-chassis/src/rateLimit.ts:31-61 | for any enabled options a run from the empty map reaches this: 10,000 keys, a wait until their buckets are full, one key more, and takes after it that are decided differently |
| RateLimitBounds.HardCapIsReached | packages/mcp-chassis/src/rateLimit.ts:31-61 | for any enabled options a run from the empty map reaches the hard cap: 20,001 keys at one instant, the last of which drops the bucket of the first, and takes after it that are decided differently |
| RateLimitBounds.RicherShows | packages/mcp-chassis/src/rateLimit.ts:41-45 | a key that lost a charge is served differently by some burst of takes |
| RateLimitBounds.Potential | packages/mcp-chassis/src/rateLimit.ts:35-45 | what was allowed since s plus what is left is at most the burst plus what accrued since s |
| RateLimitBounds.WindowBound | packages/mcp-chassis/src/rateLimit.ts:35-45 | on those runs the takes of a key allowed in [s, t] are at most burst + rps*(t-s)/1000 |
| RateLimitBounds.LossyWindowBound | packages/mcp-chassis/src/rateLimit.ts:31-61 | on every run whose clock does not go back, lossy or not: the takes of a key allowed in [s, t] are at most burst + rps*(t-s)/1000 and one more burst for each take in [s, t] that loses the key |
| RateLimitBounds.NothingLost | packages/mcp-chassis/src/rateLimit.ts:49-61 | a lossless run loses no key, whatever the interval |
| RateLimitBounds.HintIsLeast | packages/mcp-chassis/src/rateLimit.ts:46 | the hint is the least whole number of seconds, at least one, after which a token is there |
| RateLimitBounds.RetryHintIsSound | packages/mcp-chassis/src/rateLimit.ts:35-46 | a take at the hinted time or later succeeds if none was allowed meanwhile; denied retries and sweeps do not delay it |
| RateLimitBounds.RetryHintIsMinimal | packages/mcp-chassis/src/rateLimit.ts:35-46 | a hint r over 1, with the bucket still tracked: any take up to r-1 seconds later is denied |
| RateLimitExact.AllowedExactly | packages/mcp-chassis/src/rateLimit.ts:31-47 | on a lossless run whose clock does not go back, with a positive rate and a burst of at least one: a take is allowed if and only if every interval that ends with it still has a token, a burst and rps tokens a second less the takes of the key allowed in it |
| RateLimitExact.Attained | packages/mcp-chassis/src/rateLimit.ts:35-45 | some interval that ends now leaves exactly what the bucket of the key holds |
| RateLimitExact.DisabledAllowsAll | packages/mcp-chassis/src/rateLimit.ts:27-32 | with a rate of zero or less, or a burst under one, every take of every run is allowed and nothing is tracked |
| RateLimitExact.FewKeysLoseNothing | packages/mcp-chassis/src/rateLimit.ts:41 | no take is lossy while fewer than 10,000 buckets are tracked |
| TenantStore.MemoryTenantStore.Put | packages/mcp-chassis/src/index.ts:426-442 | binds the hash to the tenant as unprofiled, or refuses another tenant's token without a change |
| TenantStore.MemoryTenantStore.RotateTenantToken | packages/mcp-chassis/src/index.ts:468-485 | deletes the tenant's unprofiled hashes while iterating and puts the new one |
| TenantStore.MemoryTenantStore.ProvisionTenantToken | packages/mcp-chassis/src/index.ts:487-505 | replaces the hash bound to the profile, on all three maps |
| TenantStore.MemoryTenantStore.EnsureTenantToken | packages/mcp-chassis/src/index.ts:507-535 | created, replayed or conflict, with the maps after it |
| TenantStore.MemoryTenantStore.SetTenantStatus | packages/mcp-chassis/src/index.ts:537-548 | changes the tenant's record and no credential |
| TenantStore.MemoryTenantStore.PreserveTenantTokenHash | packages/mcp-chassis/src/index.ts:550-576 | adds a digest as an unprofiled credential, finds it, or refuses |
| TenantStore.RunAgrees | packages/mcp-chassis/src/index.ts:418-585 | after any sequence of allowed operations with fresh generated tokens the three maps agree with one table of hashes, tenants and profiles, whatever the ids of the tenants |
| TenantStore.EmptyAgrees | packages/mcp-chassis/src/index.ts:421-423 | the empty store agrees |
| TenantStore.RunAgreesExactly | packages/mcp-chassis/src/index.ts:418-585 | for every sequence of operations with fresh generated tokens: the three maps agree with one table before and after each operation exactly when each is allowed: no `put` of a profile credential's token or of a new tenant with a profile key in use, and no token bound to a profile key that another known tenant has |
| TenantStore.PutAgreesExactly | packages/mcp-chassis/src/index.ts:426-442 | a put that is not refused keeps the agreement exactly when its token is not a profile credential's and no profile key in use is a key of the tenant, if it is new; and its effect on the table |
| TenantStore.BindAgreesExactly | packages/mcp-chassis/src/index.ts:492-503 | binding a free hash to a tenant's profile keeps the agreement exactly when no other known tenant has an accepted profile with the same key |
| TenantStore.AtMostOneHash | packages/mcp-chassis/src/index.ts:492-503 | each tenant and profile has at most one hash and the profile map finds exactly it |
| TenantStore.ResolvesCurrent | packages/mcp-chassis/src/index.ts:444-454 | resolving reports the tenant's current status, expiry and details, and the credential's own profile |
| TenantStore.RotateEffect | packages/mcp-chassis/src/index.ts:468-485 | exactly one unprofiled hash remains for the tenant, every other credential is untouched |
| TenantStore.ProvisionTokenEffect | packages/mcp-chassis/src/index.ts:487-505 | the profile's only hash is the new one and every other credential of the table is untouched; the maps go on agreeing exactly when the key is not shared |
| TenantStore.EnsureEffect | packages/mcp-chassis/src/index.ts:507-535 | what each outcome says about the table, that a created token is replayed when reconciled again, and that only a creation under a shared key ends the agreement |
| TenantStore.SetStatusEffect | packages/mcp-chassis/src/index.ts:537-548 | the table is unchanged; every hash of the tenant, and no other, resolves to the new status |
| TenantStore.SuspensionReachesAll | packages/mcp-chassis/src/index.ts:683-691 | suspending a tenant makes every one of its tokens inactive, profiled or not |
| TenantStore.PreserveEffect | packages/mcp-chassis/src/index.ts:550-576 | adds one row or changes nothing, and never rebinds a hash |
| TenantStore.KeysCollideExactly | packages/mcp-chassis/src/index.ts:492 | two accepted profiles of two tenants can have one key exactly when one id is the other, a NUL, and at most 98 characters that do not begin with whitespace |
| TenantStore.SeparableIsUnshared | packages/mcp-chassis/src/index.ts:492 | no accepted profile of any known tenant shares its key exactly when no addressable id continues another across the separator |
| TenantStore.CollisionDropsOther | packages/mcp-chassis/src/index.ts:492-494 | when two tenants have one profile key, a provision for either deletes the other's credential |
| TenantStore.CollisionIsReached | packages/mcp-chassis/src/index.ts:487-505 | for any two addressable ids that can collide there are accepted profiles with which, from the empty store, one tenant loses its credential to the other; the maps agree before the first binding and not after it |
| TenantStore.SeparatorCollides | packages/mcp-chassis/src/index.ts:492-494 | the smallest case: the tenants `a` and `a` followed by NUL, with the profiles NUL `q` and `q` |
| TenantStore.SpaceSeparates | packages/mcp-chassis/src/index.ts:614-620 | an id that continues another by a NUL and a space does not collide with it, since profiles are trimmed |
| TenantBook.RunByRules | packages/mcp-chassis/src/index.ts:418-585 | on every allowed run with fresh generated tokens the three maps hold what a plain book of tokens and tenants holds and give its answers, by the written rule of each operation: who a token is bound to, status and expiry after a put and a rotation, refusals, replays and conflicts |
| TenantBook.OpByRule | packages/mcp-chassis/src/index.ts:418-585 | each of the six operations does to the book what its rule says |
| TenantBook.ServedExactly | packages/mcp-chassis/src/index.ts:683-691 | a token is served if and only if the book has it and its tenant is active and not expired, and then for that tenant and that profile |
| TenantBook.ReturnedIsResolved | packages/mcp-chassis/src/index.ts:426-535 | the record returned for a token just put, rotated, provisioned or created is what the token resolves to, expiry included |
| TenantBook.LowerOfDigits | packages/mcp-chassis/src/index.ts:552 | the lower case of the hexadecimal digits |
| Strings.TrimCuts | packages/mcp-chassis/src/index.ts:614-620 | trimming cuts whitespace off both ends and nothing else |
| Strings.TrimExactly | packages/mcp-chassis/src/index.ts:614-620 | whatever whitespace is put around a trimmed text, trimming gives the text |
| OAuth.MemoryOAuthStore.ConsumeCode | packages/mcp-chassis/src/oauth.ts:158-163 | a code is gone after the first attempt, expired or not |
| OAuth.MemoryOAuthStore.CreateClient | packages/mcp-chassis/src/oauth.ts:145-147 | the client is known by its id |
| OAuth.MemoryOAuthStore.CreateCode | packages/mcp-chassis/src/oauth.ts:154-156 | the code is stored and no other map changes |
| OAuth.MemoryOAuthStore.CreateToken | packages/mcp-chassis/src/oauth.ts:165-168 | both token maps get the pair |
| OAuth.MemoryOAuthStore.ResolveOAuthAccessToken | packages/mcp-chassis/src/oauth.ts:170-180 | an unexpired token of the map, or nothing |
| OAuth.MemoryOAuthStore.GetByRefreshToken | packages/mcp-chassis/src/oauth.ts:182-186 | the token behind a refresh token |
| OAuth.MemoryOAuthStore.RotateAccessToken | packages/mcp-chassis/src/oauth.ts:188-195 | the old access token is deleted and the refresh token points at the new one |
| OAuth.OAuthServer.PrunePending | packages/mcp-chassis/src/oauth.ts:342-344 | deleting while iterating leaves exactly the unexpired consents, in order |
| OAuth.OAuthServer.HandleAuthorizeGet | packages/mcp-chassis/src/oauth.ts:329-357 | opening consent for a valid request and an identified browser, with the bound on pending consents |
| OAuth.OAuthServer.HandleAuthorizeDecision | packages/mcp-chassis/src/oauth.ts:359-411 | a code only for an approved decision whose consent is pending, unexpired and for the same subject, tenant and request, or for a tenant token |
| OAuth.OAuthServer.HandleCodeGrant | packages/mcp-chassis/src/oauth.ts:418-446 | the code is consumed first; a pair only for its redirect URI and verifier (section 4.6 of RFC 7636) |
| OAuth.OAuthServer.HandleRefreshGrant | packages/mcp-chassis/src/oauth.ts:448-456 | rotation of the access token behind a known refresh token (section 6 of RFC 6749) |
| OAuthRuns.RunsAreSafe | packages/mcp-chassis/src/oauth.ts:329-456 | over every interleaving with fresh random strings: a consent nonce yields at most one code, a code at most one pair, refresh and access tokens stay in bijection, at most 1000 consents are pending |
| OAuthRuns.ResolvedTokensDescend | packages/mcp-chassis/src/oauth.ts:170-180 | a token that resolves carries the tenant, client and scope of the consent it descends from |
| OAuthRuns.SupersededNeverResolves | packages/mcp-chassis/src/oauth.ts:188-195 | an access token superseded by a refresh never resolves again, whatever follows |
| OAuthRuns.ExchangeIsBound | packages/mcp-chassis/src/oauth.ts:418-446 | on every run a code is exchanged only with the redirect URI and a verifier for the challenge of the approved request, within ten minutes of the approval, which came before its consent expired, and only if it was not exchanged before |
| OAuthRuns.StepKeeps | packages/mcp-chassis/src/oauth.ts:329-456 | every step keeps the invariant behind these results |
| OAuthRuns.RunKeeps | packages/mcp-chassis/src/oauth.ts:329-456 | so does every run |
| OAuthRequests.RequestsAreRegistered | packages/mcp-chassis/src/oauth.ts:329-456 | on every run from the empty server every pending consent, stored code and code ever given out is for a client registered earlier in the run, one of that client's own redirect URIs, method S256 and a nonempty challenge |
| OAuthRequests.RunIsProper | packages/mcp-chassis/src/oauth.ts:552-561 | every run keeps this of the clients known at the time |
| OAuthRequests.ConsentAnswers | packages/mcp-chassis/src/oauth.ts:329-357 | opening consent: refused if and only if a parameter is missing, the method is not S256, the client is unknown, the redirect URI is not its own or is not valid; otherwise sign-in or a form, with the consent stored for ten minutes |
| OAuthRequests.LastConsentCounts | packages/mcp-chassis/src/oauth.ts:347-352 | a nonce has the consent stored for it last, and the others keep theirs |
| OAuthRequests.BrowserDecisionAnswers | packages/mcp-chassis/src/oauth.ts:359-404 | a decision in the browser: when it is refused, when its form is invalid, when access is denied and when a code is stored, for which request and tenant and until when |
| OAuthRequests.TokenDecisionAnswers | packages/mcp-chassis/src/oauth.ts:383-404 | the same for a decision with a tenant token |
| OAuthRequests.StrangerDecides | packages/mcp-chassis/src/oauth.ts:366-373 | without an identity nothing is decided and nothing changes |
| OAuthRequests.ExchangeAnswers | packages/mcp-chassis/src/oauth.ts:418-446 | a code is exchanged if and only if it is stored, unexpired, for the redirect URI and answered by the verifier; the pair carries what the code says and the access token lasts an hour |
| OAuthRequests.RefreshAnswers | packages/mcp-chassis/src/oauth.ts:448-456 | a refresh succeeds if and only if the refresh token has an access token, which it replaces by one for an hour |
| ReplyGate.PreferredStructuredReadEvidence | packages/core/src/replyGate.ts:242-283 | the recursive accumulator equals a scan of the flattened list of admissible evidence, for every value, start and depth |
| ReplyGate.BestIsFirstLeast | packages/core/src/replyGate.ts:238-240 | that scan finds the first candidate of least preference |
| ReplyGate.FirstTextEvidenceUrl | packages/core/src/replyGate.ts:285-296 | the first admissible URL of a text |
| ReplyGate.FirstNestedTextEvidenceUrl | packages/core/src/replyGate.ts:298-318 | the first admissible URL of the texts in depth-first order, outside sensitive and structured fields |
| ReplyGate.TextContainsEvidenceUrl | packages/core/src/replyGate.ts:329-337 | finds exactly the admissible URLs of a text |
| ReplyGate.PreferredEvidenceForRead | packages/core/src/replyGate.ts:320-327 | structured evidence first, then the first URL in text |
| ReplyGate.ContainsExactly | packages/core/src/replyGate.ts:339-356 | the separately written containment check finds exactly the structured URLs and the URLs in text, under the shared depth, width and sensitive-key limits |
| ReplyGate.ChosenUrlIsReturned | packages/core/src/replyGate.ts:320-363 | every URL chosen as evidence for a read is one that the containment check finds in that read |
| ReplyGate.ReturnedUrlIsAnswered | packages/core/src/replyGate.ts:320-363 | the other way: a read that returned a URL is given some evidence |
| ReplyEvidence.SensitiveIsIgnored | packages/core/src/replyGate.ts:257 | replacing the values under sensitive keys anywhere, at any depth, changes neither the chosen evidence nor the answer of the containment check for any URL |
| ReplyEvidence.OtherSecretIsAlike | packages/core/src/replyGate.ts:257 | an object with another value under a sensitive key is one of those |
| ReplyEvidence.ChosenIsBest | packages/core/src/replyGate.ts:242-327 | the chosen evidence is a field of least preference among those the read shows, by literal names, within 100 items and 8 levels, and a URL in text only when there is no such field |
| ReplyEvidence.CanonicalIsChosen | packages/core/src/replyGate.ts:230-240 | a safe canonical URL that the read shows is never passed over for anything else |
| ReplyEvidence.ReturnedIsShown | packages/core/src/replyGate.ts:339-356 | the containment check finds exactly the URLs that the read shows, in fields or in text |
| ReplyEvidence.TextUrlsAre | packages/core/src/replyGate.ts:285-296 | a text gives the safe URLs of its matches, without the punctuation behind them, and none of the beginnings of templates |
| ReplyEvidence.UnparsedGivesText | packages/core/src/replyGate.ts:320-363 | a result that is not parsed gives the first URL in its text, and the containment check finds those in its text |
| ReplyOrder.EarlierWins | packages/core/src/replyGate.ts:238-327 | whatever list inside a read is cut in two: what is chosen for the whole is what is chosen for the first part, unless the second has strictly better evidence |
| ReplyOrder.FirstMatchWins | packages/core/src/replyGate.ts:285-296 | in a result that is not parsed the first match that gives a URL is chosen |
| Lines.SplitOpen | scripts/readiness-keeper/keeper.py:136 | lines that are joined with newlines are read back, except for one empty last line |
| Lines.SplitClosed | scripts/readiness-keeper/keeper.py:136 | with a closing newline they are read back exactly |
| Lines.PiecesOfJoined | scripts/readiness-keeper/keeper.py:136 | joined lines are read back with a newline behind each, but for an open last one |
| Lines.FlatPieces | scripts/readiness-keeper/keeper.py:128 | the lines of a text with their breaks put together are the text |
| Lines.LinesOfPieces | scripts/readiness-keeper/keeper.py:128 | without their breaks they are the lines that are split |
| Lines.SpacesDiffer | scripts/readiness-keeper/keeper.py:119-122 | the whitespace and the line breaks of the two languages, and where they differ |
| KeeperEnv.ParseEnv | scripts/readiness-keeper/keeper.py:117-123 | the map that the assigning lines define, later lines winning |
| KeeperEnv.SetEnvLines | scripts/readiness-keeper/keeper.py:126-136 | rewrites lines in place, then appends the updates whose key was not seen |
| KeeperEnv.LineReadsBack | scripts/readiness-keeper/keeper.py:133 | a line written for an update that can be written is read back as that update |
| KeeperEnv.EntryIsWritable | scripts/readiness-keeper/keeper.py:119-122 | whatever an entry is read as can be written back |
| KeeperEnv.RoundTrip | scripts/readiness-keeper/keeper.py:117-136 | for every text and every dictionary of updates: parsing the rewritten text gives the old map overridden by the updates exactly when each key is trimmed, break-free, without an equals sign and not a comment, and each value break-free |
| KeeperEnv.LinesOfResult | scripts/readiness-keeper/keeper.py:126-136 | for updates that can be written: the lines of the new text, counted exactly |
| KeeperEnv.OthersKept | scripts/readiness-keeper/keeper.py:127 | for updates that can be written: all other lines are kept in order, but for one empty last line that was closed by a break other than a newline when nothing is appended |
| KeeperBytes.OthersKeptExactly | scripts/readiness-keeper/keeper.py:126-136 | for every text and all updates that can be written: the lines that no update touches keep their bytes and their breaks exactly when each of them is closed with a newline, or is the open last line and nothing is appended |
| KeeperBytes.NewlineTextKept | scripts/readiness-keeper/keeper.py:126-136 | in a text whose only breaks are newlines they do, unless an append closes an open last line that no update touches |
| KeeperBytes.NothingRewritten | scripts/readiness-keeper/keeper.py:126-136 | rewriting nothing keeps a text exactly when its only breaks are newlines |
| KeeperBytes.BreakIsChanged | scripts/readiness-keeper/keeper.py:128 | a text whose untouched line loses its carriage return |
| KeeperBytes.LineIsLost | scripts/readiness-keeper/keeper.py:128-136 | a text whose empty last line is lost |
| KeeperEnv.RewritingTwice | scripts/readiness-keeper/keeper.py:126-136 | for updates that can be written: rewriting twice gives the same text as rewriting once |
| KeeperLines.EntryExactly | scripts/readiness-keeper/keeper.py:117-123 | a line is read as a key and a value if and only if it is whitespace, the key, whitespace, an equals sign and the value, and the key is trimmed, without an equals sign and not a comment |
| KeeperLines.LastEntryWins | scripts/readiness-keeper/keeper.py:117-123 | a key has the value of the last line that is an entry for it, and no value if there is none |
| KeeperLines.NewLinesAre | scripts/readiness-keeper/keeper.py:126-136 | for every text and dictionary: each entry for an updated key becomes key, equals sign and value, every other line is kept in its place, and the updates without an entry follow in order |
| KeeperCheck.CheckedRewrite | scripts/readiness-keeper/keeper.py:269-276 | for every dictionary: the check accepts exactly when the keys whose value differs between the old text and the readings of the new lines, each split at its own breaks, are the keys to update; for updates that can be written, when none equals the current value; for values that break, when no later line of theirs assigns, when no first line equals the current value |
| KeeperCheck.DeltaIsExact | scripts/readiness-keeper/keeper.py:273-275 | overriding changes exactly the updated keys just when no update repeats a current value |
| KeeperCheck.ReadsAsItsLines | scripts/readiness-keeper/keeper.py:117-136 | for every text and every dictionary, written values that break included: the new text is read as its lines are one by one, later ones winning |
| KeeperCheck.CutsAreReadBack | scripts/readiness-keeper/keeper.py:117-136 | values whose later lines do not assign are read back as their first lines, and nothing else changes |
| KeeperCheck.CutIsAccepted | scripts/readiness-keeper/keeper.py:269-276 | a value that breaks is accepted and read back shorter, unless its first line is current or a later line assigns |
| KeeperAlerts.PlanAlerts | scripts/readiness-keeper/keeper.py:190-206 | the messages and the new state of one tick, in order |
| KeeperAlerts.TickEvents | scripts/readiness-keeper/keeper.py:190-206 | what one tick with distinct keys sends about one key |
| KeeperAlerts.TickMessages | scripts/readiness-keeper/keeper.py:190-206 | the messages of a tick, texts included: the issues that are new, changed or due again, in order, and then the records without an issue, in order |
| KeeperAlerts.LogDecides | scripts/readiness-keeper/keeper.py:190-206 | over any ticks, what is sent about a key is decided by the log of what was sent about it before: the state adds nothing |
| KeeperAlerts.EveryLogIsWellFormed | scripts/readiness-keeper/keeper.py:190-206 | every key's log is blocks of one or more alerts closed by exactly one recovery naming the block's first alert, alerts of one level that follow each other are the re-alert period apart, and a key is open exactly when the last tick reported it |
| KeeperAlerts.SilenceIsRecent | scripts/readiness-keeper/keeper.py:197-202 | a tick that reports a key sends nothing about it exactly when the last alert has its level and is more recent than the re-alert period |
| ErrorHistory.ComponentErrors.RecordError | docs/health/s1-live/aggregate.py:477-495 | one event folded into the objects, with the latest error shared between its field and the list |
| ErrorHistory.ComponentErrors.FileLate | docs/health/s1-live/aggregate.py:485-490 | an older, different error goes into the list only, once, sorted, and the newest ten stay |
| ErrorHistory.ComponentErrors.CopyThroughJson | docs/health/s1-live/aggregate.py:500 | the copy shows the same errors and shares none |
| ErrorHistory.SortEntries | docs/health/s1-live/aggregate.py:489 | the sort of the objects is the stable sort of what they show |
| ErrorHistory.SortSorts | docs/health/s1-live/aggregate.py:489 | the filed list is in order of time |
| ErrorHistory.SortPermutes | docs/health/s1-live/aggregate.py:489 | the sort loses and invents nothing |
| ErrorHistory.LaterFollows | docs/health/s1-live/aggregate.py:491-495 | a later event of another name becomes the latest error and follows the list as it was, of which the newest ten stay |
| ErrorHistory.LateIsFiled | docs/health/s1-live/aggregate.py:485-490 | an event of another name that is not later is filed in order of time, unless the list has that name from that time; what does not fit in ten places is no newer than what stays |
| ErrorHistory.SameNameRaises | docs/health/s1-live/aggregate.py:480-484 | an event of the same name moves the latest error to its time and source when it is later, and changes nothing otherwise |
| ErrorHistory.RecordTracks | docs/health/s1-live/aggregate.py:477-495 | recording keeps the latest error equal to the summary of all events, first seen no later than seen, no listed error newer than it or made of times that were not recorded, and at most ten |
| ErrorHistory.CopyTracks | docs/health/s1-live/aggregate.py:500 | so does a copy through JSON, although it breaks the sharing |
| ErrorHistory.HistoryTracks | docs/health/s1-live/aggregate.py:477-517 | so does every interleaving of events in any order with copies |
| ErrorHistory.SummaryMeans | docs/health/s1-live/aggregate.py:477-495 | the summary is the first event at the latest time, first seen where the unbroken run of record-late events of its name began |
| ErrorHistory.CopiesShowInTheList | docs/health/s1-live/aggregate.py:480-483 | the list, unlike the latest error, depends on where the copies fall |
| ErrorList.ListedExactly | docs/health/s1-live/aggregate.py:477-495 | for all steps: the list holds the latest error exactly when it was not raised after a copy that came after it began, and no ten errors of other names were recorded at its time while it had that time |
| ErrorList.ListFollows | docs/health/s1-live/aggregate.py:477-495 | what the list has at every step: the latest error and behind it, one for each name, the others at its time; or nothing of it but what it was before it was raised |
| ErrorList.SortTop | docs/health/s1-live/aggregate.py:489 | the stable sort puts what has the latest time at the end, in the order it had |
| ErrorList.CopyHidesTheLatest | docs/health/s1-live/aggregate.py:480-483 | the first way to lose it: a copy, then the same error again |
| ErrorList.TiesHideTheLatest | docs/health/s1-live/aggregate.py:485-490 | the second way, without a copy: ten other errors at its time push it out of its own list |
| HealthRuns.Aggregate | docs/health/s1-live/aggregate.py:498-542 | one run over the reports: the new state and the transitions shown |
| HealthRuns.FoldReport | docs/health/s1-live/aggregate.py:509-527 | one report: errors, last activity, status, its beginning, and the transition |
| HealthRuns.RunsFollow | docs/health/s1-live/aggregate.py:519-526 | over any runs, a component's transitions are exactly the changes in the sequence of statuses reported for it, and its stored status is the last of them, since the time of the report that began it |
| HealthRuns.EverySuffixIsAChain | docs/health/s1-live/aggregate.py:519-542 | in the full log and in every suffix: each transition starts where the one before ended, none repeats a status, the last ends at the stored status, and alerts strictly alternate between entering and leaving red |
| HealthRuns.AlertsAlternate | docs/health/s1-live/aggregate.py:525 | the alerts of any chain alternate, and the last one says whether the chain ends in red |
| HealthRuns.ChangesChain | docs/health/s1-live/aggregate.py:519-526 | changes form a chain |
| HealthRuns.StoredIsTheEnd | docs/health/s1-live/aggregate.py:538-541 | the stored transitions are the last 200 of the full log and the shown ones the last 50 |
| HealthRuns.LastErrorIsSummary | docs/health/s1-live/aggregate.py:499-516 | over any runs, each re-reading the state from JSON, a component's latest error is the summary of all events recorded for it |
| HealthRuns.LastActivityIsLatest | docs/health/s1-live/aggregate.py:518-520 | the activity kept is the last one reported among those at the latest time |
| HealthRuns.UnwellIsRecorded | docs/health/s1-live/aggregate.py:510-516 | an event is recorded for a component if and only if one of its reports brought it, or was itself amber or red, with the report's time, problem and origin |
| HealthRuns.UnwellShows | docs/health/s1-live/aggregate.py:499-516 | after any runs a component that was reported red or amber has a latest error no older than that report |
| HealthLists.ErrorsAreSteps | docs/health/s1-live/aggregate.py:499-516 | over any runs a component's errors are those of one history: in each run a copy through JSON and then the events of its reports in order |
| HealthLists.ListedAfterRuns | docs/health/s1-live/aggregate.py:477-516 | after any runs: a component's list holds its latest error if and only if that was not raised in a later run than the one in which it began, and no ten errors of other names were recorded at its time while it had that time |
| Throttle.RateLimiter.Evict | units/callisthenes/throttle.py:54-57 | drops the events up to the horizon, that one included |
| Throttle.RateLimiter.Allow | units/callisthenes/throttle.py:59-73 | the decision and the deque after it |
| Throttle.RateLimiter.Remaining | units/callisthenes/throttle.py:75-78 | what is left of the cap after eviction, never negative |
| Throttle.TenantRateLimiters.ForTenant | units/callisthenes/throttle.py:96-104 | one limiter object for each tenant, made when first asked for; an empty tenant is refused |
| Throttle.TenantRateLimiters.Send | units/callisthenes/throttle.py:158-161 | a tenant's send changes the deque of that tenant only |
| Throttle.RefusedOnlyWhenFull | units/callisthenes/throttle.py:54-73 | with a clock that does not go back, a send is let through exactly when the cap is positive and the window ending now holds fewer sends than it |
| Throttle.DequeIsWindow | units/callisthenes/throttle.py:54-73 | with a positive window, the deque is exactly the in-window part of the allowed history |
| Throttle.WindowBound | units/callisthenes/throttle.py:59-73 | no half-open window of the given length, wherever it ends, holds more allowed sends than the cap |
| Throttle.TenantsAreSeparate | units/callisthenes/throttle.py:81-104 | in an interleaved run each tenant has the deque and the decisions of its own private limiter |
| Throttle.TenantWindowBound | units/callisthenes/throttle.py:81-104 | so the bound holds for every tenant of an interleaved run |
| Throttle.TenantSendsAreOwn | units/callisthenes/throttle.py:96-104 | the sends let through for a tenant are those its private limiter lets through |
| DeployEnv.RewriteExactly | scripts/zmr-production-image.py:265-266 | for every text with one full entry that begins a stretch between newlines: the rewritten text has the target as its one entry, and loses exactly the lines that shared the entry's stretch |
| DeployEnv.DriftCheckAccepts | scripts/zmr-production-image.py:57-64 | the new text reads back the target, and keeps the other lines exactly when nothing but a closing break follows the forty digits in the entry's stretch |
| DeployEnv.LoneBreakIsRefused | scripts/zmr-production-image.py:265-267 | a vertical tab after the entry is a text where it does not: the later comparison refuses what was sent |
| DeployEnv.AtMostOneRewrite | scripts/zmr-production-image.py:57-60 | a text that passed the entry check has at most one stretch to rewrite |
| DeployEnv.OneLine | scripts/zmr-production-image.py:265 | when the rewritten stretch is one line |
| DeployEnv.GitShaExactly | scripts/zmr-production-image.py:57-60 | the entry check passes if and only if exactly one line names a revision, in forty lower-case hexadecimal digits |
| DeployEnv.StableEnvCounts | scripts/zmr-production-image.py:63-64 | the comparison counts each line that does not name a revision, and no other |
| DeployProtocol.StepKeeps | scripts/zmr-production-image.py:215-297 | every step of every invocation keeps the plan, the modes and the exclusiveness of the intents |
| DeployProtocol.RunKeeps | scripts/zmr-production-image.py:215-297 | so does every interleaving, with crashes before, after or between effects |
| DeployProtocol.EveryDispatchIsPlanned | scripts/zmr-production-image.py:256-269 | before a dispatch its invocation has, in this order, written the intent, scaled to zero, twice found the service quiet, updated receipt and application, and found it quiet again |
| DeployProtocol.VerifiedAfterDispatch | scripts/zmr-production-image.py:271-297 | a verified receipt comes after its invocation's own dispatch and, later, a look that found its own target settled, running alone, healthy and without drift |
| DeployProtocol.LastUpdateIsOwn | scripts/zmr-production-image.py:265-269 | the last update of the application before a dispatch is the dispatching invocation's own exactly when no invocation of the other mode updated it between |
| DeployProtocol.OtherModeBetween | scripts/zmr-production-image.py:265-269 | a run in which a rollback updates the application between a deployment's update and its dispatch |
| DeployProtocol.AtMostOneDispatch | scripts/zmr-production-image.py:151-156 | a mode is dispatched at most once from a recovery directory, over any crashes and re-runs |
| DeployProtocol.DispatchHasIntent | scripts/zmr-production-image.py:256 | the dispatching invocation itself wrote the exclusive intent, for the same mode, earlier |
| DeployProtocol.IntentsLast | scripts/zmr-production-image.py:221-233 | an intent stays, and a rollback's comes after a deployment's |
| DeployProtocol.UpdatesNameTheTarget | scripts/zmr-production-image.py:265-267 | every environment sent to the application reads back the target of its invocation's mode |
| DeployDispatch.DispatchSawNothing | scripts/zmr-production-image.py:188-269 | before each dispatch, in order and by its own invocation: the intent, the scale to zero, two looks, the receipt, the update to the target of the mode, and one more look; each look found the service by its name with replicas zero, every task in one of the six final states and no container |
| DeployDispatch.LookDecides | scripts/zmr-production-image.py:188-213 | the converse: a look with anything else stops the invocation, or is repeated, at most sixty times, if it came right after the scale and saw the right service |
| DeployDispatch.ActDoes | scripts/zmr-production-image.py:256-270 | what each act of an invocation writes, and that no other state acts |
| DeployDispatch.ReceiptSawTarget | scripts/zmr-production-image.py:271-295 | a verified receipt comes after the invocation's own dispatch and a look that found the target's image, revision and image ID in the only running container, settled, healthy and without drift |
| DeployDispatch.WatchDecides | scripts/zmr-production-image.py:271-297 | each of the sixty looks after the dispatch confirms the target, is repeated, or ends the invocation, and in which case |
| Timeline.HourIsWorst | docs/health/s1-live/timeline.py:123-147 | for any samples and trimmings: an hour has the worst status sampled in it since it was last trimmed away, where grey is no worse than green, green than amber and amber than red |
| Timeline.Band | docs/health/s1-live/timeline.py:497-509 | the loop that extends the last segment through its alias builds the segments |
| Timeline.SegmentsDescribe | docs/health/s1-live/timeline.py:497-509 | the segments tile the window, each hour has its segment's key, neighbours differ |
| Timeline.OnlySegmentsDescribe | docs/health/s1-live/timeline.py:497-509 | and no other list of segments does |
| Timeline.Runs | docs/health/s1-live/timeline.py:543-550 | the loop over the values and one absent value more draws the blocks in order, with a point for each hour and its value |
| Timeline.BlocksAreMaximal | docs/health/s1-live/timeline.py:543-550 | the blocks drawn are exactly the maximal blocks of present values |

## Left out

- User interface, HTTP, SSH, docker, curl, SQLite and provider calls: only what they return or are told appears, as parameters.
- Regular-expression and prose checks of the reply gate and of approval intent (`reconcileTaskingReply`, `hasMutationSuccessClaim`, `classifyApprovalIntent`): pattern lists, taken as given functions.
- `renderActionTurnReply`: formatting of counters and list items around the evidence functions that are modelled.
- `draftHash` and `canonicalDraft`: strings are printed unquoted there, so no exactness holds; they are opaque functions here.
- `hasAnyLiveApprovalToken`: a one-line read of the live tokens.
- A second reading of the clock inside one operation: each operation of the models happens at one time.
- Clocks that go backwards, and floating-point rounding: times do not decrease where a lemma says so, tokens and times are exact reals.
- Negative zero: a finite number is the decimal text that is printed for it, so -0 is 0, as it is in JSON.
- `normalizeProvisionTenant` and the details of a tenant (name, plan, quota): opaque; `provisionTenant` is a `put` with a fresh or given token.
- The state after a corrupted profile map (a profile hash with no credential): the source would fail on a missing record, the model returns an error.
- OAuth provider states and the discovery documents: one-shot entries like the codes; easy beside the flow that is modelled.
- The text of a consent request: the pair of base URL and parameters stands for the string the source builds from them.
- `merge_smoke`: a case distinction; the fold takes the merged status and problem as given, and its results hold for any. An absent problem and an empty one are the same here.
- HealthRuns.Aggregate: gives the state and the transitions; the other columns of the health document are copied from the report or counted, with no effect on later runs.
- Sorting a report's own events by time before the fold: the results hold for events in any order.
- ISO timestamps: integers in the same order. The text of an activity comes without its age, which the source cuts off with a regular expression.
- `trim_samples` on the list of raw samples, and the drawing of segments, bars, points and labels: presentation.
- Precedence of probed over rebuilt statuses in the strip: the key of an hour is an input of the segment loop.
- `load_recovery` and the live checks of the image switch (mounts, images, tasks): each is a check that may pass or stop its invocation; the comparison of environments is modelled in `DeployEnv.dfy`.
- The output of `execute` and the fields of its receipts beside their phase: what is written is told by the steps.
- Locks of the limiter: an operation is one step.
