# Verified model of the platform backend

A Dafny model of the stateful core of the AI platform's Go backend, with proofs of what it promises.
Each module follows one component of the source.

- **Quota and inference services.** `Inference` says what the create, apply, patch and delete handlers do to
  the service and quota tables; `InferenceApi` has the same operations as objects that load, change and save
  rows; `QuotaConservation` proves the balance over whole runs, `QuotaAmounts` what each service is charged and
  `QuotaDecisions` when each request is granted. `RetryTx` models the two retry wrappers.
- **Cost and adapters.** `CostLedger` covers token quotas and exactly-once GPU billing, `AdapterMounts` and
  `AdapterDecisions` the adapter and mount tables, `Reconcile` the recomputation of usage from jobs and the
  tasks that jobs become.
- **Authentication.** `Auth` defines sign-in, second factors and tokens as steps over one world; `AuthManager`
  is the manager object. `SignIn` says which answer a sign-in gets and how long its token lives. `Lockout` and
  `LockoutTight` bound the passwords that can be tried, `MfaProtocol` and `MfaSessions` trace every session to
  the factors behind it, and `MfaTokens` says when a token can be used again. `Totp` and
  `OidcTables` model the used-counter table and the nonce and verifier tables with their background sweeps.
- **Concurrency.** `EventBus` and `DiscoveryPool` are state machines whose steps interleave freely;
  `RateLimiter` is the per-tenant fixed window.
- **Codecs.** `Ber`, `BindResult` and `DnEscape` cover the LDAP bind messages and distinguished names.
- **Vector index.** `VectorStore`, `Tokenizer` and `Embedder` cover the in-memory index and hashing embedder.

Most modules have the same shape: a `Step` function on values that says what one operation does, a class whose
methods change their fields as the source does and are proved to do that step, and lemmas about all runs of
steps. Each handler call is one step with one clock reading; only the event bus, the discovery pool and the
sweep of the OIDC tables are cut finer. Clocks, identifiers, signatures, hashes and the outcomes of database
calls are parameters.

## What the proofs found

- The rate limiter's bound over a closed window is 2*limit - 1, one less than the obvious bound, and it is
  reached.
- A used one-time code must be remembered for (2*skew + 1)*step - 1 clock ticks; the configured 90 seconds
  suffice, anything shorter than that span does not.
- A temporary token that nobody revoked yields a second session exactly when every earlier blacklist write for
  it was lost or the later lookup fails, since a failing lookup counts as "not revoked" (or when a blacklist
  hook is not set).
- A password comparison whose failure cannot be recorded does not count towards the lockout: any number of them
  fits into one tick. Otherwise the bound is exact.
- Running the event bus a second time replaces the cancel function of the first run, so Stop then waits for
  workers that only their parent context can still tell to return.
- Upsert copies vectors but a search hands out the stored slices, so a caller that writes to a hit changes the
  index.
- The lock flag of `RecordLoginFailure` survives from an attempt that conflicted to the one that commits, so a
  lock can be reported that was never written.
- A create whose insert fails and whose release fails too keeps its reservation for good.
- The update of an apply omits the cluster column, and that of a patch omits the runtime name that it clears
  to ask for a redeployment.
- A mount's tenant is trimmed and its adapter's is not, so the tenant's own delete does not see the mount
  exactly if the tenant has white space at an end. For the same reason a mount by such a tenant goes into the
  tables of the tenant without the white space.
- Rounding the charge down to whole GB lets a tenant's live services ask for up to 1023 MiB each beyond its
  memory limit.
- The bind result is the first octet of the code, hence right exactly below 256; DN escaping leaves NUL alone.
- `TotalMemory` counts negative memory as nothing while the tasks pass it on.

## Model

| member | source | states |
|---|---|---|
| RateLimiter.TenantLimiter.AllowAt | backend/internal/api/ratelimit.go:31-49 | The verdict is whether the bucket serving the call still has room, and the new table has that bucket with one more grant, or a fresh one once the old has lapsed; other tenants' buckets stay. |
| RateLimiter.NewTenantLimiter | backend/internal/api/ratelimit.go:20-29 | A limit that is not positive gives no limiter; otherwise an empty one with a window of one second. |
| RateLimiter.Allow | backend/internal/api/ratelimit.go:31-49 | Without a limiter every call is allowed. |
| RateLimiter.WindowBound | backend/internal/api/ratelimit.go:31-49 | In every run with a monotone clock, any closed interval as long as the window holds at most 2*limit - 1 granted calls of a tenant. |
| RateLimiter.WindowBoundIsTight | backend/internal/api/ratelimit.go:31-49 | For every limit and window some run reaches exactly that number, so no smaller bound holds. |
| RateLimiter.BucketGrantsAtMostLimit | backend/internal/api/ratelimit.go:31-49 | A stored count is the number of calls granted since the bucket was opened, and never exceeds the limit. |
| RateLimiter.NoInterference | backend/internal/api/ratelimit.go:31-49 | A tenant receives the verdicts it would receive if the calls of all other tenants were left out. |
| Totp.MfaService.constructor | backend/internal/auth/mfa.go:36-49 | The service starts with 30-second steps, a skew of one, 90 seconds of memory for used counters, six digits and an empty table. |
| Totp.MfaService.ClaimCounter | backend/internal/auth/mfa.go:143-152 | A counter is granted exactly if its table entry is missing or lapsed; a granted claim enters it until now plus its life. |
| Totp.MfaService.VerifyTotp | backend/internal/auth/mfa.go:105-124 | The loop over the skew window accepts exactly if the first counter with this code is claimable, and claims nothing else. |
| Totp.MfaService.SweepExpired | backend/internal/auth/mfa.go:171-180 | Removes exactly the entries that have lapsed at its clock reading. |
| Totp.SingleUse | backend/internal/auth/mfa.go:105-180 | Section 5.2 of RFC 6238: in every run of verifications and sweeps, from any table, no (secret, counter) pair is accepted twice if an entry lives for the whole span (2*skew + 1)*step - 1 in which its counter is acceptable. Nothing is assumed of the code or key functions. |
| Totp.ServiceSingleUse | backend/internal/auth/mfa.go:36-49 | The settings of the constructor meet that condition. |
| Totp.ShortLifeReplays | backend/internal/auth/mfa.go:105-152 | The condition is necessary: for every step, skew and shorter life there are codes and a run that accepts one pair twice. |
| Totp.AcceptedExactly | backend/internal/auth/mfa.go:105-152 | After any run from an empty table a code is accepted exactly if it has the right number of digits, the first counter within the skew of now / step that has this code exists, and no code was accepted under that counter's key within the last ttl ticks. |
| Totp.SweepForgetsExactly | backend/internal/auth/mfa.go:171-180 | Right after a sweep the table holds no claim whose life was over at its reading, and still every one whose life is not over now. |
| Ber.WriteTlv | backend/internal/auth/ldap.go:113-124 | The length loop writes short form below 128 and minimal big-endian long form otherwise. |
| Ber.WriteInt | backend/internal/auth/ldap.go:126-137 | The digit loop writes the unsigned big-endian magnitude, one zero octet for 0 and no octets for a negative number. |
| Ber.ParseTlv | backend/internal/auth/ldap.go:145-167 | The reader stays in bounds on every input and agrees with the declarative reader, error for error. |
| Ber.TlvRoundTrip | backend/internal/auth/ldap.go:113-167 | Reading a written element followed by anything gives back tag, content and the rest exactly if the content is shorter than 2^32 octets; a longer content is refused for its length. |
| Ber.LongFormReads | backend/internal/auth/ldap.go:145-167 | Any long form of at most four length octets, minimal or not, reads back. |
| Ber.ReadSplits | backend/internal/auth/ldap.go:145-167 | Whatever is read successfully is split into a header of two to six octets, the value and a strictly shorter rest, with nothing lost. |
| Ber.TlvIsPrefixFree | backend/internal/auth/ldap.go:113-124 | Two element streams that agree as octets agree element by element. |
| Ber.BerIntReads | backend/internal/auth/ldap.go:126-137 | A written integer reads back and, if not negative, has its value. |
| Ber.BindResultRoundTrip | backend/internal/auth/ldap.go:169-196 | Sections 4.1.1 and 4.2.2 of RFC 4511: for any message id and trailing elements at each level the parser answers with the first octet of the encoded result code, which is the code exactly if it is below 256. |
| BindResult.ReadsExactly | backend/internal/auth/ldap.go:145-167 | The reader gives an element exactly if the octets are its tag, its length in the short form or a long form of at most four octets, its content and whatever follows. |
| BindResult.BindResultExactly | backend/internal/auth/ldap.go:169-196 | The parser answers with a code exactly if the octets are a message, an identifier and a response with tag 0x61 that opens with a non-empty element of tag 0x0a whose first octet is that code; a response of another operation is an error. |
| Ber.FirstWeighsMost | backend/internal/auth/ldap.go:150-160 | The first octet of a length weighs most. |
| DnEscape.Escape | backend/internal/auth/ldap.go:50-69 | The builder loop produces the escaped form position by position. |
| DnEscape.EscapeRoundTrip | backend/internal/auth/ldap.go:50-69 | Reading an escaped value gives back the user name, so it cannot end or extend the value it is inserted in. |
| DnEscape.EscapeIsInjective | backend/internal/auth/ldap.go:50-69 | Different user names get different escaped values. |
| DnEscape.ConformsIffNoNul | backend/internal/auth/ldap.go:50-69 | The result is a legal attribute value of section 2.4 of RFC 4514 exactly if the user name has no NUL. |
| DnEscape.EscapedExactly | backend/internal/auth/ldap.go:50-69 | A character other than NUL gets a backslash exactly if leaving it bare, at its place in an otherwise ordinary name, would not be a legal attribute value. |
| Tokenizer.Grams | backend/internal/llmgw/memstore.go:180-217 | The one-pass loop with two buffers, never both filled, equals: split into maximal runs, a word run whole, a CJK run of one as itself, a longer one as its bigrams. |
| Tokenizer.FlushLatin | backend/internal/llmgw/memstore.go:185-190 | Flushing a word buffer appends it if it is not empty. |
| Tokenizer.FlushCjk | backend/internal/llmgw/memstore.go:191-199 | Flushing a CJK buffer appends its overlapping pairs, or the single character. |
| Tokenizer.RunLength | backend/internal/llmgw/memstore.go:180-226 | The runs of the specification are maximal: one class throughout, and another class right after. |
| Tokenizer.GramsConcat | backend/internal/llmgw/memstore.go:180-217 | Tokenizing two texts separately gives the grams of their concatenation whenever the boundary is a run boundary. |
| Tokenizer.GramsAcrossSeparator | backend/internal/llmgw/memstore.go:180-226 | grams(a ++ sep ++ b) = grams(a) ++ grams(b) for any separator character. |
| Tokenizer.IdeographGrams | backend/internal/llmgw/memstore.go:180-226 | A text of CJK code points gives each pair of neighbours, a single character itself. |
| Tokenizer.WordGrams | backend/internal/llmgw/memstore.go:180-226 | A text of ASCII letters and digits is one gram. |
| Tokenizer.SeparatorGrams | backend/internal/llmgw/memstore.go:180-226 | A text of any other code points gives none. |
| Embedder.Sqrt32 | backend/internal/llmgw/memstore.go:228-237 | The loop computes twelve Newton iterates, and 0 for x <= 0. |
| Embedder.NewtonBound | backend/internal/llmgw/memstore.go:228-237 | For every x > 0 and every k >= 1, k steps leave x <= z*z <= x + (x - 1)^2 / 4^k. |
| Embedder.SqrtBound | backend/internal/llmgw/memstore.go:228-237 | The same for the twelve steps of the code. |
| Embedder.BucketCounts | backend/internal/llmgw/memstore.go:160-178 | The hashing loop fills the array with the number of grams per bucket. |
| Embedder.Vector | backend/internal/llmgw/memstore.go:160-178 | The three loops together compute the counts divided by the computed norm, or zeros. |
| Embedder.CountsConserve | backend/internal/llmgw/memstore.go:160-178 | Every gram is counted in exactly one bucket. |
| Embedder.NormBound | backend/internal/llmgw/memstore.go:160-178 | The squared norm of an embedding is at most 1 and at least 1 / (1 + (x - 1)/4^12), x being the sum of squared counts, and is 0 exactly for a text without grams. |
| VectorStore.Rank | backend/internal/llmgw/memstore.go:44-71 | For every iteration order of the map the loop, sort and cut give an answer of the specification: only scorable items, in rank order, at most topK, nothing left out outranking anything kept. |
| VectorStore.AnswerIsUnique | backend/internal/llmgw/memstore.go:44-71 | The specification has one answer only, so the result does not depend on the iteration order. |
| VectorStore.PrefixIsAnswer | backend/internal/llmgw/memstore.go:65-70 | The first topK of all ranked hits are that answer. |
| VectorStore.SortRanks | backend/internal/llmgw/memstore.go:123-130 | Sorting keeps the hits and puts them by score descending, then identifier ascending. |
| VectorStore.BeforeIsTotal | backend/internal/llmgw/memstore.go:123-130 | The comparison given to the sort orders any two hits with different identifiers one way, never both. |
| Base.LessIsTotal | backend/internal/llmgw/memstore.go:123-130 | Identifiers are totally ordered. |
| Base.LessExactly | backend/internal/llmgw/memstore.go:123-130 | Identifiers are ordered by the first character in which they differ, a proper prefix first. |
| VectorStore.KeywordReturnsExactly | backend/internal/llmgw/memstore.go:73-93 | A keyword search returns exactly the items with a positive score that fewer than topK such items are ahead of (all of them if topK is not positive), each at the place given by how many are ahead: those with a higher score, or the same score and a smaller identifier. |
| VectorStore.CosineReturnsExactly | backend/internal/llmgw/memstore.go:44-71 | A vector search does so with the items whose vector, like the query, is not empty and has a cosine with it. |
| VectorStore.StoredLast | backend/internal/llmgw/memstore.go:24-42 | After an upsert an identifier stands for the last of the items with it. |
| VectorStore.StoredElse | backend/internal/llmgw/memstore.go:24-42 | Without such an item it stands for what it did before. |
| VectorStore.MemoryVectorStore.Upsert | backend/internal/llmgw/memstore.go:24-42 | The collection ends up with the items stored in order, the last one of an identifier winning, keys equal to identifiers, and every vector in an array of the store's own. |
| VectorStore.UpsertThenWrite | backend/internal/llmgw/memstore.go:33-39 | A caller that writes to its slice after an upsert does not change what is stored. |
| VectorStore.SearchThenWrite | backend/internal/llmgw/memstore.go:53-62 | A caller that writes to the vector of a hit does change what is stored, in that very item. |
| VectorStore.WriteThrough | backend/internal/llmgw/memstore.go:24-71 | A write to any array changes exactly the vectors of the items that hold it, so it changes the contents exactly if some item does and the number is a new one. |
| VectorStore.MemoryVectorStore.Search | backend/internal/llmgw/memstore.go:44-71 | A missing collection has no hits; otherwise the unique answer for cosine scores of vectors with the same dimension, handed out as the stored items themselves, sharing their slices. |
| VectorStore.MemoryVectorStore.SearchKeyword | backend/internal/llmgw/memstore.go:73-93 | The same for positive keyword scores. |
| VectorStore.MemoryVectorStore.Delete | backend/internal/llmgw/memstore.go:95-108 | Removes exactly the items of the document from that collection. |
| VectorStore.MemoryVectorStore.DropCollection | backend/internal/llmgw/memstore.go:110-115 | Removes that collection and no other. |
| EventBus.Bus.Publish | backend/internal/events/bus.go:60-71 | Accepts and enqueues exactly if the channel has room, otherwise counts a drop. |
| EventBus.Bus.Subscribe | backend/internal/events/bus.go:46-50 | Appends the handler to its event type. |
| EventBus.Bus.Receive | backend/internal/events/bus.go:95-96 | A worker takes the oldest queued event. |
| EventBus.Bus.Dispatch | backend/internal/events/bus.go:101-118 | Calls every handler of the event type in order, whichever of them panic, and recovers from each panic. |
| EventBus.Conservation | backend/internal/events/bus.go:60-118 | In every reachable state, with any number of workers: published = dropped + queued + in flight + finished, the queue within its capacity, and the events handed out are a prefix of those accepted, once each. |
| EventBus.AcceptedExactly | backend/internal/events/bus.go:30-71 | In every reachable state a published event is accepted exactly while fewer accepted events wait for a worker than the buffer holds, 1024 unless a positive number is given; otherwise it is counted as dropped and nothing else changes. |
| EventBus.RunStartsExactly | backend/internal/events/bus.go:30-80 | Each Run starts as many idle workers as were asked for, four unless a positive number is given, in a new context that is not cancelled. |
| EventBus.DispatchedFaithfully | backend/internal/events/bus.go:101-118 | A finished delivery called exactly the handlers subscribed when they were looked up, once each and in order; an unfinished one a prefix of them. |
| EventBus.BusyWorkerGoesOn | backend/internal/events/bus.go:101-118 | A worker that holds a delivery can always go on with it; one that unwinds from a panic recovers and calls the next handler. |
| EventBus.StopLeavesNothingOpen | backend/internal/events/bus.go:82-99 | When Stop returns no delivery is half done. |
| EventBus.NoCallAfterStop | backend/internal/events/bus.go:82-87 | From any state in which Stop may return no handler is looked up or called until the bus is run again. |
| EventBus.SilentAfterStop | backend/internal/events/bus.go:82-87 | The same for every run of a new bus, split at a return of Stop. |
| EventBus.StopReturnsExactly | backend/internal/events/bus.go:82-99 | In any reachable state the workers can get, by their own steps, to where Stop returns exactly if every worker that has not returned is of a cancelled context. |
| EventBus.StopTellsLastRun | backend/internal/events/bus.go:73-87 | So a call of Stop can return, with no further cancellation, exactly if every worker that has not returned is of the last Run or was cancelled before: Run replaces the cancel function of an earlier Run. |
| EventBus.SecondRunBlocksStop | backend/internal/events/bus.go:73-87 | A bus that was run twice cannot be stopped by Stop alone; one that was run once can. |
| EventBus.StepKeepsInv | backend/internal/events/bus.go:46-118 | Every step of every interleaving keeps the queue, subscription, work and count invariants together. |
| DiscoveryPool.BoundedConcurrency | backend/internal/scheduler/scheduler.go:162-187 | In every interleaving at most as many refreshes run at once as the semaphore has slots. |
| DiscoveryPool.SchedulerBound | backend/internal/scheduler/scheduler.go:162-187 | For the scheduler's constant that number is 16. |
| DiscoveryPool.EachAttemptedOnce | backend/internal/scheduler/scheduler.go:162-187 | No cluster is attempted twice; when the function has returned every listed cluster has been attempted exactly once and every goroutine has ended, through its recovery if its refresh panicked. |
| DiscoveryPool.SomeStepEnabled | backend/internal/scheduler/scheduler.go:162-187 | Until the function has returned some step is possible, even if every refresh panics and must unwind before its slot is free. |
| DiscoveryPool.AlwaysReturns | backend/internal/scheduler/scheduler.go:162-187 | Every run has at most 8n + 1 steps for n clusters, and one that cannot go on has returned. |
| OidcTables.OidcProvider.StoreNonce | backend/internal/auth/oidc.go:353-363 | Enters the nonce with its expiry, after replacing a lifetime of zero, and no other, by the default. |
| OidcTables.OidcProvider.ConsumeNonce | backend/internal/auth/oidc.go:412-424 | Accepts exactly a present nonce that has not expired, and removes it either way. |
| OidcTables.OidcProvider.StorePkce | backend/internal/auth/oidc.go:426-433 | Stores the verifier under the nonce. |
| OidcTables.OidcProvider.ConsumePkce | backend/internal/auth/oidc.go:435-444 | Returns the stored verifier, or the empty string, and removes it. |
| OidcTables.OidcProvider.SweepNonceTable | backend/internal/auth/oidc.go:382-390 | The first lock section removes exactly the nonces expired at the reading taken before it. |
| OidcTables.OidcProvider.SweepVerifierTable | backend/internal/auth/oidc.go:391-400 | The second lock section removes exactly the verifiers whose nonce is gone or expired at that reading. |
| OidcTables.NonceExact | backend/internal/auth/oidc.go:382-424 | Under every interleaving a nonce is accepted exactly if its last issue was not presented since and has not lapsed: the sweep is invisible. |
| OidcTables.NonceAcceptedExactly | backend/internal/auth/oidc.go:353-424 | So presenting a nonce succeeds exactly if some event issued it, none issued or presented it since, and its lifetime, ten minutes unless another is set, is not over. |
| OidcTables.NonceKeptExactly | backend/internal/auth/oidc.go:382-424 | A nonce is in the table exactly if it was issued, was not presented since, and no sweep's first section since came upon it lapsed at that sweep's reading. |
| OidcTables.VerifierExact | backend/internal/auth/oidc.go:382-444 | A verifier comes back only from the store it was last put in by, and does come back while its nonce is outstanding and unexpired. |
| OidcTables.VerifierHeldExactly | backend/internal/auth/oidc.go:382-444 | Under every interleaving a verifier is in the table, and is what consuming it returns, exactly if it was stored, was not taken out since, and no sweep since came upon it with its nonce gone or lapsed at that sweep's reading. |
| OidcTables.NonceSingleUse | backend/internal/auth/oidc.go:412-424 | A nonce is accepted at most as often as it was issued. |
| OidcTables.VerifierSingleUse | backend/internal/auth/oidc.go:435-444 | A verifier is returned at most as often as one was stored for its nonce. |
| OidcTables.SweepIsSafe | backend/internal/auth/oidc.go:382-400 | Neither section of the sweep removes an unexpired nonce, or a verifier whose nonce is still present and unexpired. |
| AuthManager.ConsumeRecovery | backend/internal/auth/mfa.go:212-247 | Finds a code exactly if it is listed, and leaves the list without its first occurrence. |
| AuthManager.AmrHasMfa | backend/internal/auth/sso.go:91-98 | True exactly if some reported method is "mfa" up to white space and case. |
| AuthManager.Manager.RecordLoginFailure | backend/internal/storage/enterprise.go:108-139 | Counts a failure; the one that fills the counter starts a lock and clears it. Without a limit it only counts. |
| AuthManager.Manager.SignToken | backend/internal/auth/auth.go:195-212 | Issues a token with a fresh id and the claims given. |
| AuthManager.Manager.SignMfaTempToken | backend/internal/auth/auth.go:305-315 | Issues a temporary token of scope mfa. |
| AuthManager.Manager.Issue | backend/internal/auth/auth.go:363-378 | Issues a session and blacklists the temporary token it replaces. |
| AuthManager.Manager.Login | backend/internal/auth/auth.go:253-303 | Each refusal in the order of the code, the failure counter, and a session or a temporary token; which of the two, SignIn.PasswordAnswersExactly says on the user's fields. |
| AuthManager.Manager.VerifyMfa | backend/internal/auth/auth.go:319-361 | Each refusal in the order of the code; a session only for a valid temporary token with a one-time or recovery code. |
| AuthManager.Manager.CheckCode | backend/internal/auth/auth.go:336-361 | The one-time code is tried first, then the recovery codes, and a failure of both is counted. |
| AuthManager.Manager.VerifyPasskey | backend/internal/auth/auth.go:380-402 | A session for the user whose id the temporary token carries, after a valid assertion. |
| AuthManager.Manager.BeginMfa | backend/internal/auth/auth.go:406-433 | Stores a pending secret and pending recovery codes, and no more; changes nothing if they cannot be drawn or saved. |
| AuthManager.Manager.ConfirmMfa | backend/internal/auth/auth.go:435-464 | A code of the pending secret makes the pending enrolment the user's second factor; the counter is used up even if the row cannot be saved. |
| AuthManager.Manager.DisableMfa | backend/internal/auth/auth.go:466-475 | Drops secret and recovery codes but not an enforced requirement, or changes nothing if the row cannot be saved. |
| AuthManager.Manager.SsoLogin | backend/internal/auth/sso.go:50-89 | Inserts or re-enables the account, keeping its factors, and asks for a second factor unless the provider reported one. |
| SignIn.LoginStepExactly | backend/internal/auth/auth.go:253-303 | A login with the right password of an enabled, unlocked account that has one is answered with a session exactly if the user has no second factor enabled or enforced and, where passkeys are configured, no passkey; otherwise with a temporary token. No other login gets a token. |
| SignIn.PasswordAnswersExactly | backend/internal/auth/auth.go:253-315 | The same for every login of every run, on the fields of the user in the world it met, with the scope and the expiry of the token: the session's ttl or the challenge's. |
| SignIn.PasswordSessionOwesNothing | backend/internal/auth/auth.go:284-303 | So no session of any run was given for a password alone to a user who owed more. |
| SignIn.LoginRefusedExactly | backend/internal/auth/auth.go:253-283 | Which refusal a failing login gets; the last of too many wrong passwords reports the lock that it starts. |
| SignIn.RightPasswordClears | backend/internal/auth/auth.go:281-284 | The right password clears the account's counter and lock if they are kept and the database takes it, and changes no other account. |
| SignIn.SsoLoginExactly | backend/internal/auth/sso.go:50-89 | When a sign-in over an identity provider is refused, what becomes of the account, and that it gets a temporary token exactly if a second factor is enabled or enforced and the provider reported none. |
| SignIn.StepIssues | backend/internal/auth/auth.go:195-212 | A step issues at most one token, for the entry it logs: a temporary one until now + mfaTtl or a session's until now + ttl. |
| SignIn.TokenOfEntry | backend/internal/auth/auth.go:195-212 | After any run the token of a log entry carries the scope that goes with it and the expiry given by the moment of its origin. |
| SignIn.AdmittedExactly | backend/internal/auth/auth.go:214-244 | After any run the middleware admits a token exactly if it is that of a session of the run issued at a time t with now not past the second of t + ttl, and it is not the case that it was revoked, both hooks are set and the lookup works. |
| SignIn.PendingExactly | backend/internal/auth/auth.go:305-333 | A temporary token is pending exactly if it is that of a first factor of the run answered at a time t with now not past the second of t + mfaTtl. |
| SignIn.BeginExactly | backend/internal/auth/auth.go:406-433 | Beginning an enrolment is done exactly if it is configured, the user exists and the secrets are made and saved; it sets the pending ones and nothing else. |
| SignIn.ConfirmExactly | backend/internal/auth/auth.go:435-464 | Confirming is done exactly if a claimable code of the pending secret is shown and the row is saved; then the pending secret and codes are the user's and none is pending. |
| SignIn.DisableExactly | backend/internal/auth/auth.go:466-475 | Disabling drops the user's own second factor and recovery codes, not an enforced requirement. |
| SignIn.EnrolledByConfirming | backend/internal/auth/auth.go:406-475 | If a user is enrolled after a run and was not before, some request of the run showed a claimable code of the pending secret. |
| SignIn.StaysEnrolled | backend/internal/auth/auth.go:406-475 | A user enrolled before a run without a request to disable that is enrolled after it. |
| SignIn.EnrolledOwesSecondFactor | backend/internal/auth/auth.go:284-315 | So until then no login of that user logs a session: the right password logs a first factor. |
| Lockout.LockoutBound | backend/internal/auth/auth.go:253-361 | After any run, in a span of T ticks in which the right password is never tried, the comparisons Login makes for an account number at most maxFails * (floor(T / lock) + 1), plus those whose failure the database did not record; failing MFA codes and all other handlers may be interleaved. Changing the passwords that are not counted changes no reply and no state. |
| Lockout.ComparingDecides | backend/internal/auth/auth.go:253-303 | A counted login is answered with a token exactly if its password is right; one that is not counted is blind to its password. |
| Lockout.UncountedPasswordsAreUnused | backend/internal/auth/auth.go:253-303 | The same over whole runs. |
| LockoutTight.LockoutBoundIsTight | backend/internal/auth/auth.go:253-303 | For every span and every number of unrecorded failures some run reaches the bound exactly, with wrong passwords at the beginning of each lock period. |
| LockoutTight.UnrecordedComparisonsAreFree | backend/internal/auth/auth.go:268-280 | At a single tick any number of comparisons can be made if none of their failures is recorded. |
| Lockout.BatchesClosedForm | backend/internal/auth/auth.go:253-303 | The recursive count of lock periods behind the bound has that closed form. |
| Lockout.RunKeepsLockInv | backend/internal/storage/enterprise.go:108-139 | In every run the counter stays below the limit and no lock reaches more than one period ahead. |
| Lockout.CounterStep | backend/internal/storage/enterprise.go:108-148 | Every handler leaves an account's counter, records one failure or clears it, and only the right password clears it; what counts as a comparison is what decides the reply. |
| MfaSessions.EntryEarned | backend/internal/auth/auth.go:253-402 | Every session and every temporary token of every run is traced to the request whose step issued it, and to what that request showed in the world it met: the right password of an enabled, unlocked account, an identity, a claimable one-time code, a listed recovery code that is then spent, or an enabled passkey with a valid assertion. |
| MfaSessions.OriginIs | backend/internal/auth/auth.go:253-402 | That step is the one that found the log up to the entry and left it with the entry. |
| MfaSessions.SessionNeedsSecondFactor | backend/internal/auth/auth.go:286-402 | In every run, a session of a user who needs a second factor when it is issued answers a request that showed one together with an unexpired temporary token, which an earlier request showing that user's password or identity was answered with; or the identity provider reported a second factor. |
| MfaSessions.CodeSessionSpends | backend/internal/auth/auth.go:336-341 | A session granted for a one-time code spent one (secret, counter) pair of that user's secret, whose code was shown. |
| MfaSessions.CodeSessionsSpendDistinctPairs | backend/internal/auth/mfa.go:105-152 | In every run of all handlers and the sweep, two sessions granted for one-time codes spent different (secret, counter) pairs. |
| MfaSessions.RecoveryCodesConserved | backend/internal/auth/auth.go:343-352 | Without a confirmed enrolment of the user between, the sessions granted for a recovery code and its remaining copies are together no more than the copies listed at the start. |
| MfaSessions.RecoveryCodesSingleUse | backend/internal/auth/auth.go:343-352 | So with distinct codes none backs two sessions before the next enrolment. |
| MfaTokens.BlacklistExact | backend/internal/auth/auth.go:363-378 | After every run the blacklist holds a token exactly if it can be written and the token was revoked or a session that consumed it got its write through. |
| MfaTokens.VerifyMfaAnswersExactly | backend/internal/auth/auth.go:319-361 | After every run VerifyMFA issues a session exactly if the token is pending and the code in order, and a blacklist hook is missing, the lookup fails, or nobody revoked the token and every session that consumed it lost its write. |
| MfaTokens.VerifyPasskeyAnswersExactly | backend/internal/auth/auth.go:380-402 | The same for VerifyPasskey and the assertion. |
| MfaTokens.AnotherSessionExactly | backend/internal/auth/auth.go:363-378 | A token that gave a session gives another one exactly under that condition, and otherwise the request changes nothing. |
| MfaTokens.OneSessionPerToken | backend/internal/auth/auth.go:363-378 | In every run two sessions from one token mean that a hook is missing, the first one's write was lost or the second one's lookup failed. |
| MfaTokens.ReplayedExactly | backend/internal/auth/auth.go:363-402 | In a run that presents one token twice at one tick, with any outcome of the write and of the lookup, the second session is issued exactly if a hook is missing or one of the two failed. |
| MfaTokens.LostWriteReplays | backend/internal/auth/auth.go:363-378 | A lost write alone suffices. |
| MfaTokens.FailedLookupReplays | backend/internal/auth/auth.go:214-244 | A failing lookup alone suffices. |
| MfaProtocol.AdmittedHasSession | backend/internal/auth/auth.go:479-514 | The middleware admits only tokens of issued sessions, never one of scope mfa; for how long, SignIn.AdmittedExactly says. |
| MfaProtocol.CodesSingleUse | backend/internal/auth/auth.go:319-464 | Over whole runs of all handlers and the sweep of the table, enrolments included, no one-time code is accepted twice. |
| MfaProtocol.TraceIsTotpRun | backend/internal/auth/auth.go:319-464 | The codes accepted in a protocol run are those of the verification run it contains. |
| MfaProtocol.RunKeepsInv | backend/internal/auth/auth.go:253-475 | Every run keeps the invariant over users, tokens, log and blacklist. |
| QuotaConservation.Conservation | backend/internal/api/inference.go:56-211 | In every run of create, apply, patch and delete each tenant's used GPUs, memory and jobs equal the sums over its live services and lost reservations, and stay within the limits; what each service is charged, QuotaAmounts.ChargeIs says. |
| QuotaAmounts.ChargeIs | backend/internal/api/inference.go:203-211 | What a service is charged: with g GPUs of m MiB, m positive, the whole GB of m*g but at least 1; without m, 40 GB for each GPU and 1 GB without any. |
| QuotaAmounts.UsedMemoryIsCharged | backend/internal/api/inference.go:56-211 | In every run a tenant's used memory is the sum of such charges, one for each live service and each lost reservation. |
| QuotaAmounts.LiveMemoryWithinQuota | backend/internal/api/inference.go:56-211 | So in every run the GPU memory of a tenant's live services, in MiB, exceeds 1024 times its memory limit by at most 1023 for each service. |
| QuotaDecisions.ValidExactly | backend/internal/api/dto_inference.go:119-253 | A specification is accepted exactly if it has a name, its counts are not negative, its maximum is missing or not below its minimum, and its canary weight is a percentage. |
| QuotaDecisions.DefaultsFilled | backend/internal/api/dto_inference.go:119-253 | What is stored differs from what was given only in the fields left out, which get their defaults. |
| QuotaDecisions.CreateAnswersExactly | backend/internal/api/inference.go:178-201 | The exact condition of every answer to a create, on the fields of the request and of the quota row, and the tables after it. |
| QuotaDecisions.ApplyAnswersExactly | backend/internal/api/inference.go:56-101 | An update is taken exactly if the row has room for the new amounts once the old ones are given back and the transaction commits. |
| QuotaDecisions.DeleteAnswersExactly | backend/internal/api/inference.go:142-162 | A delete is done exactly if the caller sees the service and the transaction commits; otherwise nothing changes. |
| QuotaDecisions.DeleteGivesBack | backend/internal/storage/storage.go:428-447 | A delete removes that one service and gives back what it was charged. |
| QuotaDecisions.PatchAnswersExactly | backend/internal/api/inference.go:103-140 | The exact condition of every answer to a patch of a service that the caller sees. |
| QuotaDecisions.PatchTakesGiven | backend/internal/api/inference.go:103-140 | A patch gives the service the given values where there are any and leaves its others and all other services alone. |
| QuotaDecisions.RequestIsOwn | backend/internal/api/inference.go:56-162 | A request of one tenant changes no other tenant's services and no other tenant's quota row. |
| QuotaDecisions.TenantsAreIsolated | backend/internal/api/inference.go:56-162 | Nor does any run of requests of other tenants. |
| QuotaDecisions.StoredServicesAreStorable | backend/internal/api/dto_inference.go:119-253 | In every run every stored service is named, in range, and has a maximum not below its minimum. |
| QuotaConservation.ConservationOfLiveServices | backend/internal/api/inference.go:56-211 | They equal the sums over the live services alone when every compensating release succeeds. |
| QuotaConservation.LeaksExactly | backend/internal/api/inference.go:178-201 | One request loses a reservation exactly if it creates, validates, fits, fails to insert and fails to release; an apply only if it finds no service of that name. |
| QuotaConservation.LeaksAreLostReleases | backend/internal/api/inference.go:178-201 | Over a run the lost reservations of a tenant are as many as those requests. |
| QuotaConservation.ExactUnlessReleaseLost | backend/internal/api/inference.go:178-201 | The used columns equal the sums over live services exactly if no request of the run was such a one for the tenant. |
| QuotaConservation.LostReleaseLeaves | backend/internal/api/inference.go:178-201 | Any create that fits, with both failures, leaves its amounts used and no service. |
| QuotaConservation.NoLeakWithoutLostRelease | backend/internal/api/inference.go:178-201 | Only a failing release after a failed insert loses a reservation. |
| QuotaConservation.FailedCreateRestores | backend/internal/api/inference.go:178-201 | A failed create whose release succeeds leaves every table as it was. |
| QuotaConservation.ClampsNeverFire | backend/internal/storage/enterprise.go:281-318 | Releasing a live service never meets the clamp at zero. |
| QuotaConservation.PatchKeepsInv | backend/internal/api/inference.go:103-140 | A patch needs no adjustment of the quota row and leaves it alone. |
| QuotaConservation.PatchKeepsRuntimeName | backend/internal/api/inference.go:103-140 | A patch never stores the emptied runtime name by which it asks for a redeployment, because its column list omits it. |
| QuotaConservation.ApplyStoresAllButCluster | backend/internal/storage/storage.go:406-422 | A successful apply stores the whole specification except the cluster, which its column list omits. |
| QuotaConservation.StepKeepsInv | backend/internal/api/inference.go:56-211 | Every handler keeps the balance for every tenant. |
| QuotaConservation.RunKeepsInv | backend/internal/api/inference.go:56-211 | So does every run, from any balanced state. |
| InferenceApi.Store.CheckAndReserve | backend/internal/storage/enterprise.go:255-279 | Reserves exactly if all three amounts fit, and otherwise changes nothing. |
| InferenceApi.Store.Release | backend/internal/storage/enterprise.go:281-292 | Subtracts the three amounts, clamped at zero. |
| InferenceApi.Store.AdjustReservation | backend/internal/storage/enterprise.go:294-322 | Replaces the old amounts by the new ones if they fit, clamped at zero. |
| InferenceApi.Store.UpdateColumns | backend/internal/storage/storage.go:385-404 | Writes the selected columns of the rows with this id and no other. |
| InferenceApi.Store.DeleteRow | backend/internal/storage/storage.go:428-447 | Removes the rows with this id. |
| InferenceApi.Store.ApplySpec | backend/internal/storage/storage.go:406-422 | Adjusts the reservation and writes the row in one transaction, or neither. |
| InferenceApi.Store.DeleteAndReleaseQuota | backend/internal/storage/storage.go:428-447 | Deletes the row and releases its amounts, tolerating a missing quota row. |
| InferenceApi.Store.CreateService | backend/internal/api/inference.go:178-201 | Reserve, insert, and release if the insert fails; QuotaDecisions.CreateAnswersExactly states the outcome on the fields. |
| InferenceApi.Store.Apply | backend/internal/api/inference.go:56-101 | Normalise, validate, then create or update by name, with the status code of each outcome; QuotaDecisions.ApplyAnswersExactly states them on the fields. |
| InferenceApi.Store.PatchOne | backend/internal/api/inference.go:103-140 | Rejects immutable fields, then writes the patched columns. |
| InferenceApi.Store.Delete | backend/internal/api/inference.go:142-162 | Deletes a service in scope and releases what it was charged. |
| RetryTx.RetryStorage | backend/internal/storage/enterprise.go:34-64 | Stops at the first attempt that does not conflict, or at the tenth; the pauses add up to at most 2075 ms. |
| RetryTx.RetryLlm | backend/internal/storage/llm.go:625-645 | The same with five attempts, passing the last error through. |
| RetryTx.CommitsOnceIffNil | backend/internal/storage/enterprise.go:34-64 | Whatever the attempts come to, at most one commits, and one does exactly if the wrapper returns nil. |
| RetryTx.RecordLoginFailure | backend/internal/storage/enterprise.go:108-139 | The reported lock is set if any attempt made had filled the counter, since the flag is not reset between attempts. |
| RetryTx.ReportedUnlessStale | backend/internal/storage/enterprise.go:108-139 | A written lock is always reported; one is reported without being written exactly if a conflicting attempt had filled the counter and the committed one had not. |
| RetryTx.StaleReportExists | backend/internal/storage/enterprise.go:108-139 | That case occurs. |
| CostLedger.CostRepo.CheckAndConsume | backend/internal/storage/llm.go:131-153 | Charges tokens and cost exactly if the row exists and both positive limits allow it, as CostLedger.ConsumptionChargedExactly spells out. |
| CostLedger.CostRepo.ConsumeCost | backend/internal/storage/cost.go:46-60 | Adds to an existing row without checking limits. |
| CostLedger.CostRepo.RecordGpuCost | backend/internal/storage/cost.go:21-44 | Inserts the record of a job not yet recorded and charges it; a replay charges nothing. |
| CostLedger.CostRepo.SetQuotaRow | backend/internal/storage/llm.go:115-129 | Changes the limits of an existing row and leaves its usage alone. |
| CostLedger.LedgerBalances | backend/internal/storage/cost.go:21-60 | From an existing row, in every run used cost = start + costs of successful consumptions + GPU costs of distinct jobs, however often each is replayed; used tokens grow by consumed tokens alone. |
| CostLedger.FirstBillsAreDistinct | backend/internal/storage/cost.go:21-44 | The bills counted there are of distinct jobs, none recorded before. |
| CostLedger.FirstBillsCover | backend/internal/storage/cost.go:21-44 | Every job with a committed bill is among them, unless it was recorded before. |
| CostLedger.RecordsAreFirstBills | backend/internal/storage/cost.go:21-44 | The record table holds what it held and exactly those bills. |
| CostLedger.TokensStayBounded | backend/internal/storage/llm.go:115-153 | Used tokens never exceed a positive limit, GPU billing interleaved, unless a limit is set below what is used. |
| CostLedger.ConsumptionChargedExactly | backend/internal/storage/llm.go:131-153 | A committed consumption on an existing row is charged, both amounts to that row alone, exactly if it exceeds neither positive limit; otherwise nothing changes. |
| CostLedger.CostStaysBounded | backend/internal/storage/cost.go:21-60 | In every run of costs that are not negative whose limit changes never undercut, used cost under a positive limit is at most the larger of limit and start, plus the GPU bills of that run. |
| CostLedger.LimitsSetExactly | backend/internal/storage/llm.go:115-129 | Setting a quota gives an existing row both new limits, leaves its usage alone, and changes no other row and no record. |
| CostLedger.UndercutBreaksBound | backend/internal/storage/llm.go:115-129 | Setting a limit keeps the bound exactly if it does not undercut. |
| AdapterMounts.SplitUndoesJoin | backend/internal/ports/adapter_mount.go:76-87 | Base and adapter name come back out of a served name exactly if the base has no separator. |
| AdapterMounts.NormalizeTwice | backend/internal/ports/adapter_mount.go:38-49 | Normalizing a mount again changes nothing. |
| AdapterMounts.FormIsExact | backend/internal/api/finetune.go:181-194 | The row a mount stores, and exactly when it is refused as invalid. |
| AdapterMounts.MountForm.Normalize | backend/internal/ports/adapter_mount.go:38-49 | Trims every field, then fills a missing served name. |
| AdapterMounts.MountForm.Validate | backend/internal/ports/adapter_mount.go:51-74 | Accepts exactly filled rows whose served name has the base model as prefix. |
| AdapterMounts.Registry.CreateAdapter | backend/internal/api/finetune.go:40-76 | Each refusal in the order of the code; otherwise the normalized adapter is stored for the caller's tenant. |
| AdapterMounts.Registry.InsertMount | backend/internal/storage/adapter_mount.go:49-95 | Normalizes, validates and inserts unless the tenant has that served name. |
| AdapterMounts.Registry.MountAdapter | backend/internal/api/finetune.go:144-201 | Each refusal in the order of the code; otherwise a mount with the adapter's tenant, base model and name; AdapterDecisions.MountAnswersExactly has each condition. |
| AdapterMounts.Registry.UnmountAdapter | backend/internal/storage/adapter_mount.go:97-108 | Removes all matching mounts in scope, and reports if there was none. |
| AdapterMounts.Registry.DeleteAdapter | backend/internal/storage/finetune.go:119-140 | Refused while a mount in scope refers to the adapter; otherwise deletes it within the scope. |
| AdapterMounts.Registry.ResolveServedName | backend/internal/storage/adapter_mount.go:136-148 | Finds the mount in scope with the served name and the least key, or there is none. |
| AdapterMounts.MountsReferToAdapters | backend/internal/api/finetune.go:144-201 | In every run whose adapters are created for tenants without surrounding white space, each mount refers to an existing adapter with the same tenant and base model, and its served name splits into that adapter's base model and name. |
| AdapterDecisions.MountAnswersExactly | backend/internal/api/finetune.go:144-201 | The exact condition of every answer to a mount; in particular base models that differ are refused exactly if adapter and service are there and visible. |
| AdapterDecisions.MountWasMadeForService | backend/internal/api/finetune.go:144-201 | Every mount in the tables after a run was made by a request of the run that met a visible service with the mount's base model as its name, and a visible adapter on that base model. |
| AdapterDecisions.CreateAnswersExactly | backend/internal/api/finetune.go:40-76 | The exact condition of every answer to a create. |
| AdapterDecisions.StoresGiven | backend/internal/ports/finetune.go:42-75 | What a create stores: the given fields but for white space at their ends, the method in lower case. |
| AdapterDecisions.DeleteAnswersExactly | backend/internal/storage/finetune.go:119-140 | A delete is refused exactly while a mount that the caller sees is of the adapter, and is done exactly if there is none and the adapter is seen. |
| AdapterDecisions.UnmountRemovesExactly | backend/internal/storage/adapter_mount.go:97-108 | An unmount takes away exactly the mounts of that adapter on that service which the caller sees. |
| AdapterDecisions.RequestIsOwn | backend/internal/api/finetune.go:40-201 | A request changes another tenant's adapters or mounts exactly if it is a successful mount by a caller whose name is that tenant with white space at an end. |
| AdapterDecisions.TenantsAreIsolated | backend/internal/api/finetune.go:40-201 | No run of requests of other tenants touches a tenant's rows, if none of them is the same but for white space. |
| AdapterDecisions.StoredAdaptersAreComplete | backend/internal/ports/finetune.go:42-75 | In every run every stored adapter has a name, a base model, a path, a tenant, a rank from 1 to 256 and a known method. |
| AdapterMounts.LinksBreakExactlyIfBlind | backend/internal/storage/finetune.go:119-140 | One request breaks a link exactly if it is a delete of a mounted adapter in a scope with surrounding white space. |
| AdapterMounts.TrimmedTenantsAreNeeded | backend/internal/api/finetune.go:181-189 | For every tenant, its own create, mount and delete leave the mount linked exactly if the tenant is trimmed. |
| AdapterMounts.ServedNamesResolve | backend/internal/storage/adapter_mount.go:49-95 | In every run served names are unique per tenant; with trimmed tenants an adapter is mounted at most once. |
| AdapterMounts.AdapterNamesIdentify | backend/internal/storage/finetune.go:43-80 | Within a tenant the adapter name in a served name determines the mount. |
| AdapterMounts.UnmountUndoesMount | backend/internal/storage/adapter_mount.go:49-108 | An unmount right after a mount restores the tables exactly: no other mount goes with it. |
| AdapterMounts.DeleteUndoesCreate | backend/internal/storage/finetune.go:43-140 | A delete right after a create restores the tables exactly. |
| AdapterMounts.RunKeepsInv | backend/internal/storage/finetune.go:43-140 | Every run keeps adapter names and served names unique per tenant and adapters well formed. |
| Reconcile.Reconciler.Pass | backend/internal/quota/reconciler.go:21-65 | The pass writes what the specification says for every row whose write succeeds, and nothing if a list cannot be read. |
| Reconcile.TakeLimits | backend/internal/quota/reconciler.go:33-42 | The first loop takes over limits and clears usage. |
| Reconcile.AddJobs | backend/internal/quota/reconciler.go:43-58 | The second loop adds each job that is not over to its tenant's row, creating missing rows. |
| Reconcile.Reconciler.Write | backend/internal/quota/reconciler.go:60-64 | The third loop writes every row but those that fail, in any order. |
| Reconcile.RowsAfterPass | backend/internal/quota/reconciler.go:21-65 | A written row keeps the tenant's limits, zero if it had none, and has the usage of its jobs that are not over; a failed one is as it was. |
| Reconcile.UsageIsHeld | backend/internal/models/models.go:148-180 | The usage a pass writes is what the tenant's pending, running, paused and retrying jobs hold: their amounts for every pod, which are one more than the replicas of a distributed job and one otherwise. |
| Reconcile.RowsExactly | backend/internal/quota/reconciler.go:21-65 | After a pass a tenant has a row exactly if it had one, or has such a job and the write worked; a written row has the limits it had, or zero, and that usage. |
| Reconcile.OrderDoesNotMatter | backend/internal/quota/reconciler.go:43-58 | The order of the job list does not change the table. |
| Reconcile.UsageIgnoresOrder | backend/internal/quota/reconciler.go:43-58 | A tenant's usage depends only on which jobs are listed how often. |
| Reconcile.PassesConverge | backend/internal/quota/reconciler.go:21-65 | A full pass gives the same table whatever the usage columns had drifted to and whatever an earlier pass failed to write; a further pass, even a partly failing one, changes nothing. |
| Reconcile.BuildTasks | backend/internal/k8s/client.go:474-503 | The tasks of a job, with minAvailable between 1 and the effective replicas: the requested number if it is in that range, else all. |
| Reconcile.TasksMatchTotals | backend/internal/models/models.go:148-168 | The tasks ask for the job's total GPUs in its effective replicas, and for its total memory exactly if its memory is not negative. |
| Reconcile.UsageIsDemand | backend/internal/models/models.go:148-180 | The usage a pass writes is the sum over the tasks of the tenant's active jobs; for memory it is never less, and equal exactly if none asks for a negative amount. |

## Left out

- HTTP routing, JSON binding, SQL, Kubernetes calls, metrics, audit records, notifications and the frontend.
- Cryptography and randomness: HMAC, bcrypt, AES, JWKS and WebAuthn are parameters or taken as unforgeable;
  token ids are fresh numbers, adapter and mount ids fresh trimmed strings. Stored secrets always decrypt.
- Floating point: scores, norms and costs are reals, so rounding and NaN are not modelled; Go integers are
  unbounded, except that contents and integers given to the BER writer are below 2^63.
- Process restarts, which empty the in-memory tables, and steps finer than a handler call: separate read and
  write transactions of one handler, and the several clock readings inside one verification.
- Edits of quota limits, reconciliation, and the other users of a quota row (training jobs, workspaces) in the
  conservation runs: they overwrite or share the used columns. Reconciliation is stated on its own.
- Undeploying services and deleting tenants; the cluster side of a deployment.
- Worker loops of the event bus and goroutines of the discovery pool as code: they are steps of a state
  machine, and only the bus's own methods are given as methods.
- User roles, tenant resolution, personal access tokens, listing and filtering, telemetry counters.
- The outgoing LDAP bind request and two's-complement integers: the writer produces unsigned magnitudes.
- Adapters registered by a finished training job, which take the tenant of the job; chip resource names and
  all fields of a task other than replicas, GPUs and memory.
- VectorStore.Rank: the scores are given by a function, so the cosine and keyword formulas are not modelled.
- CostLedger.TokensStayBounded: lowering a limit below what is used is excluded, since it breaks the bound at
  once.
- CostLedger.CostStaysBounded: costs are taken to be not negative, and GPU bills come on top of the limit, as
  the code charges them unchecked.
- Lockout.LockoutBound: counts the comparisons of `Login` alone and adds those whose failure was not recorded.
- RetryTx.RetryStorage: the pauses are bounded, not waited for, and the jitter is a parameter.
