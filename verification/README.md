# Chassis verification

A Dafny model of the parts of the chassis whose correctness only shows over
whole runs, with proofs of what they promise. State is kept as the chassis
keeps it: a class where methods update fields or tables in place, a state
machine over atomic steps where the point is how steps of several goroutines
interleave, functions where the code only computes. Every transaction is one
step. Whatever a component takes from outside (clocks, fresh ids, KV answers,
password checks, throttles, time zone data) is a parameter.

| component | files |
|---|---|
| Run grants: delegation tree, budgets, fencing, cascade | `RunGrants`, `RunGrantStore`, `RunGrantRuns`, `RunGrantTheorems`, `RunGrantBudget`, `RunGrantAnswers`, `RunGrantHistory`, `RunGrantExamples` |
| Calendar objects: two identities, tombstones, sync token, conditional writes | `Calendar`, `CalendarRuns`, `CalendarAnswers`, `CalendarEvents`, `CalendarExamples`, `Folding` |
| Admission: concurrency slots under reload | `Admission`, `AdmissionReload`, `AdmissionLease` |
| Nonce replay window | `Nonces`, `NonceTheorems` |
| VTIMEZONE tables | `VTimezone` |
| Caches and indexes | `ArtifactCache`, `ArtifactRecency`, `Login`, `LoginRuns`, `LoginAnswers`, `BlobIndex` |
| Allowance metering | `Windows`, `Allowance`, `AllowanceRuns` |
| Ownership of principals and standing grants | `Ownership`, `OwnershipRuns`, `OwnershipRows`, `OwnershipAnswers` |
| Shared | `Wrappers`, `Strings`, `Sums`, `Decimals`, `Civil` (also module `Tiles`), `ByteOrder` |

The modules named `...Answers` say of each operation, from the tables before the
call alone, exactly when it succeeds, what it then writes, and which error it
answers otherwise; the others build on the operations to speak of whole runs.

Where a promise turns out not to hold on every input, the model keeps the code
as it is, shows an input, and proves the exact condition:

- A mint keeps "no un-ended grant under an ended one" exactly when it does not
  reuse the run name of a grant above its parent (`MintSealed`, `StepSealed`;
  the input is `ReuseOutlivesParent`). The code compares the new run name with
  the direct parent's only.
- A grant is within its budget exactly when no unenforced charge to it while
  live exceeded it (`WithinBudget`; the input is `UnenforcedChargeOverruns`).
- Putting a changed event over its stored row raises SEQUENCE exactly when its
  UID is given without blanks at its ends or its own sequence is higher
  (`RaisedExactly`; the input is `BlankUidLowersSequence`). The row is looked up
  by the UID as given and written by the trimmed one.
- A put keeps every other live UID of its calendar exactly when its own UID is
  live, nothing is live under its name, or what is reads the same
  (`PutKeepsOthers`; the input is `SecondTakesTheName`).
- A delete takes out of the blob index exactly the valid name that the one given
  is with `:` read as `/`, which need not be itself (`DeleteRemovesExactly`; the
  input is `ColonDeletesAnother`).
- A nonce is kept for the whole `ttl` exactly when six divides `ttl` in
  nanoseconds (`RetentionExactly`; the input is `EarlyForget`), and the
  rotation loop of a store ends exactly when `ttl` is not 1 to 5 nanoseconds
  (`AnswersExactly`, whose inputs are those five).
- A VTIMEZONE offset survives the `+hhmm` text exactly when it is whole minutes
  (`OffsetRoundTrip`; one second is an input).
- Two personas get different UIDs derived for one name exactly when their
  usernames differ by more than an `@` at the end (`UidPerPersona`).
- Two foldings have the same content exactly when the same lines are left, with
  one corner: no line at all compares equal to one empty line (`OnlyVolatile`).
- A blob name comes back from its key exactly when it holds no `:`
  (`NameRoundTrip`; `a:b` is an input).
- Fuel counters exceed what was accepted exactly by the writes a KV made
  without acknowledging them (`Conserved`; the input is `ResentCountsTwice`).

## Model

| member | source | states |
|---|---|---|
| RunGrants.EndDescendants | chassis/authn/rungrants.go:633-663 | the chunked level-by-level walk, cut off after the maximum depth, ends exactly the un-ended grants with an ancestor among the roots, including those below already-ended ones, and changes no other row |
| RunGrants.EndLevel | chassis/authn/rungrants.go:639-661 | one level in chunks of parents marks all children of the level and collects exactly them for the next |
| RunGrants.WalkComplete | chassis/authn/rungrants.go:633-663 | since depth is bounded at mint, being below the roots and being reached within the bounded number of levels are the same |
| RunGrantStore.Store.Prepare | chassis/authn/rungrants.go:439-504 | the unlocked half of a mint, whose answers the next three rows give |
| RunGrantAnswers.MintAllowedExactly | chassis/authn/rungrants.go:347-504 | a mint passes its unlocked checks if and only if it is well formed, its stack owns an active principal that holds a standing grant to every resource asked for, and its parent, if any, is live, of the same tenant and minter, shallow enough, of another run, and allows every resource |
| RunGrantAnswers.MintPrepared | chassis/authn/rungrants.go:475-504 | it then carries the request's own columns, one level below its parent, until its time to live or the parent's expiry, whichever is earlier |
| RunGrantAnswers.MintRefusedBecause | chassis/authn/rungrants.go:347-504 | otherwise the first check that fails, in order, is the answer |
| RunGrantStore.Store.Insert | chassis/authn/rungrants.go:506-614 | the mint transaction: head row, parent's budget, older grants of the run, new row, or an error that leaves the tables as they were |
| RunGrantAnswers.MintCommitsExactly | chassis/authn/rungrants.go:516-614 | in the transaction a mint commits if and only if its generation is above its run's (or left to the store), its parent is live with that much budget left, and its id is new |
| RunGrantAnswers.MintRefusedInTx | chassis/authn/rungrants.go:525-569 | otherwise it is stale, or its parent is not live, or exceeds what the parent has left, which the error names; nothing has changed |
| RunGrantAnswers.MintWrites | chassis/authn/rungrants.go:516-614 | the row and the head a mint writes, column by column, in whole seconds |
| RunGrantAnswers.MintRows | chassis/authn/rungrants.go:549-588 | every other row after it: the parent pays the budget, and exactly the run's un-ended grants and the un-ended ones below them are closed as superseded at that instant |
| RunGrantStore.Store.CloseOlder | chassis/authn/rungrants.go:571-588 | closes the run's open grants and everything narrowed from them |
| RunGrantStore.Store.Charge | chassis/authn/rungrants.go:768-799 | one conditional charge: applied, or the reason it was refused, with the tables unchanged, as the next two rows give exactly |
| RunGrantAnswers.ChargedExactly | chassis/authn/rungrants.go:768-799 | a charge is applied if and only if it is positive, to a grant of the tenant that is neither ended nor expired, and fits the budget when that is enforced |
| RunGrantAnswers.ChargeWrites | chassis/authn/rungrants.go:768-799 | it adds to what that grant has spent and to nothing else; refused, it changes nothing and says why |
| RunGrantStore.Store.End | chassis/authn/rungrants.go:717-758 | close or revoke: the grant named and its descendants, and whether this call ended it |
| RunGrantAnswers.EndAllowedExactly | chassis/authn/rungrants.go:677-723 | a close or revoke goes ahead if and only if it is for the stack that minted the grant and there is something left to end |
| RunGrantAnswers.EndRefusedBecause | chassis/authn/rungrants.go:677-723 | otherwise the first check that fails is the answer |
| RunGrantAnswers.EndWrites | chassis/authn/rungrants.go:724-758 | the columns it writes, in the grant and in exactly the un-ended grants below it |
| RunGrantRuns.StepGrows | chassis/authn/rungrants.go:506-799 | no step removes a row, changes a fixed column, lowers what was spent or brings an ended grant back |
| RunGrantRuns.MintTree | chassis/authn/rungrants.go:475-614 | a mint whose parent was read earlier, with anything in between, keeps every edge narrowing in allowlist, expiry and depth |
| RunGrantRuns.MintFence | chassis/authn/rungrants.go:516-547 | a mint keeps the head of each run naming its newest grant, the only one that may be un-ended |
| RunGrantRuns.RunInv | chassis/authn/rungrants.go:439-799 | tree, fence and pending mints are sound in every interleaving of mint halves, charges, closes, revokes and clock steps |
| RunGrantTheorems.LiveAgrees | chassis/authn/rungrants.go:131-133 | liveness by stored whole seconds and by the exact clock agree |
| RunGrantTheorems.AuthorityNarrows | chassis/authn/rungrants.go:475-501 | over every run a grant's allowlist is a subset of, and its expiry no later than, those of every ancestor, and its depth is deeper and within the maximum |
| RunGrantTheorems.MintSealed | chassis/authn/rungrants.go:486-501 | a committed mint leaves no un-ended grant under an ended one if and only if it does not reuse the run name of a grant above its parent |
| RunGrantTheorems.StepSealed | chassis/authn/rungrants.go:571-588 | of all steps only such a mint breaks that, and it always does |
| RunGrantTheorems.SealedExactly | chassis/authn/rungrants.go:486-588 | a run never has an un-ended grant under an ended one, at any point, if and only if none of its mints does that |
| RunGrantTheorems.LiveAncestors | chassis/authn/rungrants.go:475-588 | in every run without such a mint a grant live at t has every ancestor live at t |
| RunGrantTheorems.EndCascade | chassis/authn/rungrants.go:717-758 | after a close or revoke the grant and every transitive descendant are ended, and no other row has changed |
| RunGrantTheorems.MintCascade | chassis/authn/rungrants.go:571-588 | a mint ends the run's open grants and all below them; of the others only the parent changes |
| RunGrantTheorems.MintIsNewest | chassis/authn/rungrants.go:516-547 | a committed mint's generation is above every generation its run ever had, and the one asked for |
| RunGrantTheorems.StaleMeansStale | chassis/authn/rungrants.go:525-547 | a mint is refused as stale only when its run is already at that generation or its id is taken |
| RunGrantTheorems.HeadIsNewest | chassis/authn/rungrants.go:516-614 | in every reachable state the head names the run's newest grant and every other grant of the run is ended and older |
| RunGrantTheorems.EndedForGood | chassis/authn/rungrants.go:717-758 | a superseded, closed or revoked grant is never live again |
| RunGrantHistory.GrantIsWhatWasAsked | chassis/authn/rungrants.go:439-614 | in every run each stored grant goes back to a request made earlier: its columns are the request's, every resource it allows was held by the active principal when that mint began, and its expiry is the request's time to live or the parent's expiry as then read |
| RunGrantHistory.EndWasAsked | chassis/authn/rungrants.go:717-758 | in every run an end under way was asked for by the stack that minted the grant |
| RunGrantHistory.EndStops | chassis/authn/rungrants.go:724-758 | in every run a committed end leaves the grant and all its descendants ended |
| RunGrantHistory.ChargedWhileRunning | chassis/authn/rungrants.go:768-799 | whatever was charged to a grant was charged while it was running |
| RunGrantHistory.EndedIsNotCharged | chassis/authn/rungrants.go:768-799 | once a grant has ended nothing is charged to it in any continuation of the run |
| RunGrantHistory.EndStopsCharges | chassis/authn/rungrants.go:717-799 | so after a close or revoke commits, nothing is ever charged to the grant or to any of its descendants |
| RunGrantBudget.SpentIsAccountedFor | chassis/authn/rungrants.go:549-569 | in every run what a grant has spent is its own charges plus the budgets of all children ever minted from it |
| RunGrantBudget.ChargeWithin | chassis/authn/rungrants.go:768-799 | a grant within its budget stays so after a charge exactly when the charge is malformed, or the grant is not the tenant's or not live, or the charge is enforced, or it fits |
| RunGrantBudget.StepWithinBudget | chassis/authn/rungrants.go:506-799 | of all steps exactly an unenforced charge to a live grant that exceeds the budget takes a grant over it |
| RunGrantBudget.WithinBudget | chassis/authn/rungrants.go:768-799 | after any run a grant is within its budget if and only if no charge to it was such a one |
| RunGrantBudget.EnforcedIsGuarded | chassis/authn/rungrants.go:768-799 | a grant whose charges all enforce the budget has had no such one |
| RunGrantBudget.SubtreeWithinBudget | chassis/authn/rungrants.go:549-569 | when none of the charges in a grant's subtree was such a one, all charges ever made anywhere in it fit in that grant's budget |
| RunGrantExamples.ReuseOutlivesParent | chassis/authn/rungrants.go:488 | a concrete run in which a mint reusing a grandparent's run name closes its own parent and lives on under it |
| RunGrantExamples.UnenforcedChargeOverruns | chassis/authn/rungrants.go:768-799 | one charge that does not enforce the budget exceeds it |
| Calendar.Store.FindUid | chassis/calendar/store.go:820-835 | the scan by UID finds the one live row that has it, or none |
| Calendar.Store.PutObject | chassis/calendar/store.go:706-816 | the conditional put of an object with its name and UID trimmed: which row it names, which precondition refuses it, no-op, create, replace or resurrect, as the next four rows give exactly |
| CalendarAnswers.PutSucceedsExactly | chassis/calendar/store.go:706-774 | a put succeeds for a row if and only if it is well formed, its calendar is live, the row is the one its UID or name resolves to, and what is live there meets If-Match and If-None-Match |
| CalendarAnswers.PutFailsBecause | chassis/calendar/store.go:706-774 | otherwise nothing changes and the first thing wrong gives the error: invalid, no calendar, UID conflict, precondition |
| CalendarAnswers.PutStores | chassis/calendar/store.go:776-816 | a put that reads the same as what is live leaves the whole store; any other stores every column of the object under the next token, keeping only the creation time of a row already there |
| CalendarAnswers.TrimmedExactly | chassis/calendar/store.go:706-720 | of an object given only the blanks at the ends of its name and UID are dropped |
| Calendar.Store.DeleteObject | chassis/calendar/store.go:920-953 | a live row becomes a tombstone under the next token, as `DeleteExactly` says in full |
| CalendarAnswers.DeleteExactly | chassis/calendar/store.go:920-953 | a delete of a live object leaves a tombstone under the next token and answers the etag of its content; its UID is live nowhere and nothing else has changed; with nothing live there, or no calendar, nothing changes |
| CalendarAnswers.DeletedIsNotListed | chassis/calendar/store.go:849-953 | what was deleted is out of every listing but one that asks for tombstones |
| CalendarAnswers.ListExactly | chassis/calendar/store.go:849-881 | a listing holds exactly the rows of the calendar that are live or asked for, newer than the token, and named |
| Calendar.Store.RemoveCalendar | chassis/calendar/store.go:623-650 | the calendar and its live rows become tombstones |
| CalendarAnswers.RemoveExactly | chassis/calendar/store.go:623-650 | removing takes the calendar and all that is live in it out under one new token, and its feed; no other calendar and no tombstone changes |
| CalendarAnswers.RemovedIsClosed | chassis/calendar/store.go:623-650 | a removed calendar takes no put and no delete |
| Calendar.Store.EnsureCalendar | chassis/calendar/store.go:415-506 | invalid names and policies are refused; else created, resurrected or updated with the fields given, and whether it was absent or deleted |
| CalendarAnswers.EnsureFailsExactly | chassis/calendar/store.go:415-506 | ensuring fails, changing nothing, if and only if tenant, user or name are missing or malformed, the policy does not parse, or a new id is taken |
| CalendarAnswers.EnsuredFields | chassis/calendar/store.go:415-506 | the calendar ensured has each field given, and for each other one what there was, or nothing |
| CalendarRuns.PutTouchesOneRow | chassis/calendar/store.go:776-816 | a put that fails or is a no-op changes nothing; any other writes one row and moves the token by one |
| CalendarRuns.ByUidKeepsName | chassis/calendar/store.go:734-762 | an update addressed by UID keeps the resource name |
| CalendarRuns.IfMatchReplacesOnlyNamed | chassis/calendar/store.go:765-774 | a successful If-Match put replaced content whose etag it named (section 13.1.1 of RFC 9110) |
| CalendarRuns.CreateOnlyCreates | chassis/calendar/store.go:765-774 | a successful If-None-Match put replaced no live object (section 13.1.2 of RFC 9110) |
| CalendarRuns.PutKeepsOthers | chassis/calendar/store.go:734-796 | a put that succeeds keeps every other live UID of the calendar if and only if its own UID is live before, nothing is live under its name, or what is reads the same |
| CalendarRuns.Ensured | chassis/calendar/store.go:409-414 | one live calendar of that key afterwards, the fields given applied and the others kept, its token and every object untouched |
| CalendarRuns.ReachableIdentity | chassis/calendar/store.go:734-816 | in every reachable state a live UID names one object of its calendar, without relying on an index (section 5.3.2.1 of RFC 4791) |
| CalendarRuns.DeltaSync | chassis/calendar/store.go:849-881 | over every run of put, delete, remove and resurrect, the rows at a token overlaid with that token's delta are exactly the rows now |
| CalendarRuns.DeltaIsMinimal | chassis/calendar/store.go:849-881 | a name is in the delta exactly when its row is new or has changed |
| CalendarRuns.NoLostUpdate | chassis/calendar/store.go:765-816 | a conditional put made after any run succeeds only over the very content its writer read |
| CalendarEvents.Materialized | chassis/calendar/put.go:59-116 | one read by the UID as given, one or two renderings and one put by the trimmed UID |
| CalendarEvents.RaiseExactly | chassis/calendar/put.go:70-86 | over the row read the sequence rendered is the stored one plus one when the content differs, whatever was asked for, and else the greater of the two |
| CalendarEvents.SameRendering | chassis/calendar/ical.go:151-261 | two renderings have the same content exactly when their stable lines agree, whatever stamp and sequence |
| CalendarEvents.PutAgain | chassis/calendar/put.go:59-116 | over any live row of the UID, whoever wrote it: a no-op that leaves the whole store untouched exactly when the content is the same, else stored under the same name with the next token, and the next sequence if the UID was given without blanks at its ends, the event's own if not |
| CalendarEvents.RaisedExactly | chassis/calendar/put.go:52-86 | over a live row changed content raises the stored SEQUENCE if and only if the UID was given without blanks at its ends or the event's own sequence is higher |
| CalendarExamples.BlankUidLowersSequence | chassis/calendar/put.go:64-86 | from an empty store: SEQUENCE 5 under `a`, then a changed event for `a` with a blank after it, and the stored SEQUENCE is 0 |
| CalendarEvents.PutFirst | chassis/calendar/put.go:59-116 | a UID that, trimmed, is not live is created trimmed, under the name given or derived, with the sequence asked for, unless an object there under another UID reads the same |
| CalendarEvents.ReadUidsDoNotShadow | chassis/calendar/put.go:104-108 | where the UID of every object is read from its text, none reads the same under another UID |
| CalendarEvents.DefaultNameIsValid | chassis/calendar/put.go:14-27 | the name derived from a UID is always a valid resource name |
| CalendarEvents.DefaultNameIs | chassis/calendar/put.go:14-27 | a UID whose part before the `@` can stand in a URL gives that part as the name |
| CalendarEvents.DefaultUidIs | chassis/calendar/put.go:29-44 | a name and a persona give the UID made of both |
| CalendarEvents.UidPerPersona | chassis/calendar/put.go:29-44 | two usernames share the UID derived for a name if and only if they differ by an `@` at the end at most |
| CalendarEvents.SharedNameReplaces | chassis/calendar/put.go:104-116 | creating under a name that another UID holds takes that UID out of the calendar |
| CalendarExamples.SharedName | chassis/calendar/put.go:14-27 | UIDs that differ in their domain derive one name |
| CalendarExamples.SecondTakesTheName | chassis/calendar/put.go:104-116 | from an empty store: events under `a@x` and `a@y`, and `a@x` is live nowhere |
| CalendarEvents.Rematerialize | chassis/calendar/put.go:59-116 | over any calls by one writer on a live UID, whoever wrote the row, the sync token counts exactly the changes of content, the content is the last one put, and the stored SEQUENCE is given call by call; it counts the changes when the UID is given without blanks |
| CalendarEvents.RematerializeFromAny | chassis/calendar/store.go:12-17 | the same from every reachable store, live UID or not: when it is not, the first call creates the object and the others go on from there |
| Folding.StripVolatile | chassis/calendar/store.go:687-699 | the loop leaves the lines that are not DTSTAMP, SEQUENCE or LAST-MODIFIED, unfolded |
| Folding.StrippedFolding | chassis/calendar/store.go:687-699 | unfolding inverts any folding, spaces and tabs mixed (section 3.1 of RFC 5545) |
| Folding.SameContentExactly | chassis/calendar/store.go:680-699 | two foldings compare equal exactly when the same non-volatile lines are left |
| Folding.OnlyVolatile | chassis/calendar/store.go:687-699 | the corner: a text of volatile lines only compares equal to an empty one |
| Admission.CountsAreExact | chassis/admission/provider.go:132-156 | in every interleaving of acquire, release and reload actions a counter equals the slots won by compare and swap and not yet given back, and is never negative |
| Admission.DrainsToZero | chassis/admission/lease.go:29-54 | it is zero once all leases have run their releases |
| Admission.NeverAbovePeak | chassis/admission/provider.go:227-276 | it never exceeds the largest cap ever stored in it, however reloads change the cap in between |
| AdmissionReload.ReloadInForce | chassis/admission/provider.go:227-276 | in every run, when a reload ends each tenant it gives a limit has exactly that cap; any other tenant still in the table has cap 0 and was busy when its eviction was tried |
| AdmissionReload.ReloadCanFinish | chassis/admission/provider.go:227-276 | from every reachable state a reload can be run through, and its caps are in force then |
| AdmissionReload.PathStep | chassis/admission/provider.go:132-156 | while those caps are in force every action keeps a request on its way to exactly that limit, and decides it by the counter |
| AdmissionReload.HeldToTheCap | chassis/admission/provider.go:132-156 | a request that looks its tenant up while they are is refused only with the counter at that limit, and admitted only with a slot; without a limit it is admitted without one |
| AdmissionReload.Alone | chassis/admission/provider.go:132-156 | alone, a request is through in five actions, admitted if and only if exempt, unlimited or below the cap |
| AdmissionReload.EvictedExactly | chassis/admission/provider.go:267-275 | a counter leaves the table exactly when a reload that set its cap to zero finds nothing in flight on it; else its tenant keeps that very counter |
| AdmissionReload.StaysWhileInUse | chassis/admission/provider.go:245-276 | while its slots are in use a tenant stays on one counter through any number of reloads |
| Admission.ReloadKeepsCounts | chassis/admission/provider.go:227-276 | no action of a reload changes a live in-flight count or loses a counter object |
| Admission.RegisterMoves | chassis/admission/lease.go:29-37 | registering moves a slot from the request to its lease, neither losing nor duplicating it |
| AdmissionLease.Lease.Release | chassis/admission/lease.go:41-54 | every registered decrement runs exactly once, however often the lease is released |
| AdmissionLease.AcquireConcurrency | chassis/admission/provider.go:132-156 | run alone: admitted exactly when unlimited or below the cap, and a slot taken is on the lease |
| AdmissionLease.RoundTrip | chassis/admission/lease.go:8-15 | acquiring and releasing, twice even, leaves the counter as it was |
| Nonces.NonceStore.constructor | chassis/auth/nonces.go:44-59 | an empty log over buckets of a sixth of the ttl, which stand for it exactly when they have any width |
| Nonces.NonceStore.Rotate | chassis/auth/nonces.go:80-85 | the seven rotating buckets keep standing for the log as windows pass |
| Nonces.NonceStore.UseNonce | chassis/auth/nonces.go:67-94 | replay is reported exactly when the unbounded log holds the pair in its last seven windows |
| NonceTheorems.RefusedExactly | chassis/auth/nonces.go:67-94 | over any calls with a non-decreasing clock, a use is refused exactly when an accepted use of the pair fell in its window or one of the six before |
| NonceTheorems.ReplayRefused | chassis/auth/nonces.go:67-94 | a pair used again within six bucket widths is refused |
| NonceTheorems.OldUseForgotten | chassis/auth/nonces.go:67-94 | a pair unused for seven bucket widths is accepted |
| NonceTheorems.RetentionExactly | chassis/auth/nonces.go:44-59 | the retention is at least the ttl exactly when six divides it |
| NonceTheorems.EarlyForget | chassis/auth/nonces.go:44-59 | a replay exactly one ttl later that is accepted, for every ttl six does not divide |
| NonceTheorems.EndsExactly | chassis/auth/nonces.go:81-85 | once due, the rotation loop ends if and only if the bucket width is positive |
| NonceTheorems.AnswersExactly | chassis/auth/nonces.go:44-59 | a store answers a use after its first window if and only if its ttl is not 1 to 5 nanoseconds |
| NonceTheorems.KeyInjective | chassis/auth/nonces.go:72-75 | with no NUL in key ids the composite key names one pair |
| NonceTheorems.KeyCollision | chassis/auth/nonces.go:72-75 | two pairs with one composite key when a key id may hold NUL |
| VTimezone.Bisect | chassis/calendar/vtimezone.go:38-47 | the bisection terminates on the whole second at which the offset changes |
| VTimezone.Build | chassis/calendar/vtimezone.go:16-53 | with the offset changes of the window on whole seconds an hour apart, the table starts with the zone as it is, lists every change in order under a name the zone has within the hour, and gives the zone's offset at every instant from the window's start to an hour before its end |
| VTimezone.OffsetRoundTrip | chassis/calendar/vtimezone.go:75-83 | an offset read back from its text is the offset exactly when it is whole minutes |
| VTimezone.ClientAgrees | chassis/calendar/vtimezone.go:58-73 | for whole-minute offsets a client reading the component computes what the table says (section 3.6.5 of RFC 5545) |
| VTimezone.Component | chassis/calendar/vtimezone.go:16-73 | end to end: from the component of a year a client computes the zone's offset at every instant from a year before it to an hour short of three years after, for such zones with whole-minute offsets there |
| Civil.GregorianMonths | chassis/allowance/allowance.go:59-64 | the months of the Gregorian calendar tile the days, none over 31 long |
| ArtifactCache.Cache.Get | chassis/compute/artifact_cache.go:37-46 | a hit is the entry's artifact and moves it to the front, the rest in order; list, map and size stay in step |
| ArtifactCache.Cache.Put | chassis/compute/artifact_cache.go:50-69 | the new entry in front of exactly the longest most-recent prefix that fits beside it; the eviction loop never meets an empty list |
| ArtifactCache.RunKeeps | chassis/compute/artifact_cache.go:37-69 | over every run each ref is held once, within the budget, with an artifact put under it |
| ArtifactCache.TouchExactly | chassis/compute/artifact_cache.go:37-46 | a use brings the entry to the front and leaves the others, in their order, behind it |
| ArtifactCache.PutExactly | chassis/compute/artifact_cache.go:50-69 | an artifact too large, or there already, changes nothing; any other is in front, followed by the longest run of most recent entries that fits |
| ArtifactRecency.RunIsRecent | chassis/compute/artifact_cache.go:37-69 | over every run the list is in order of last use |
| ArtifactRecency.EvictsLeastRecent | chassis/compute/artifact_cache.go:58-69 | so whatever a put throws out was used less recently than whatever it keeps |
| ArtifactCache.HitsAreTrue | chassis/compute/artifact_cache.go:15-18 | if puts agree on what a ref names, no hit is ever stale |
| Login.LoginKeyInjective | chassis/apppass/logincache.go:30-33 | a cache key names one credential, hash and password when the first two hold no NUL |
| Login.LoginKeyClash | chassis/apppass/logincache.go:30-33 | two triples with one key when a hash may hold NUL |
| Login.LoginCache.Hit | chassis/apppass/logincache.go:36-48 | a hit exactly when the key is held and unexpired; an expired one is dropped |
| Login.LoginCache.Put | chassis/apppass/logincache.go:51-69 | when full, the loop drops the expired, and then everything if that frees nothing |
| Login.StoredSize | chassis/apppass/logincache.go:51-69 | the cache never outgrows its bound |
| LoginAnswers.PutKeepsAlive | chassis/apppass/logincache.go:51-69 | a put keeps its key until its time is over and every unexpired key as long as they fit; the cache starts anew only when they do not |
| LoginAnswers.LookKeepsAlive | chassis/apppass/logincache.go:36-48 | a lookup drops its key when expired, and nothing else |
| Login.Cover | chassis/authn/scope.go:104-111 | some scope covers the door, segment by segment |
| LoginAnswers.CoversLaws | chassis/authn/scope.go:65-76 | a granted `*` stands for any segment but the domain and nothing else does; asking for any needs a grant of any |
| LoginAnswers.CoversCompose | chassis/authn/scope.go:65-76 | what covers a scope covers all that it covers |
| Login.Resolver.Login | chassis/authn/resolver.go:155-231 | the outcome, whether it came from the cache, and what the cache holds afterwards |
| Login.Transparent | chassis/authn/resolver.go:203-231 | with a truthful cache a cached login ends as a full check would, and an uncached one differs at most by being throttled |
| Login.OkExactly | chassis/authn/resolver.go:155-231 | a full check signs in exactly with a live credential of the principal, its password, a covering scope and an active user |
| LoginRuns.CacheIsTransparent | chassis/authn/resolver.go:155-231 | the same after every run of issuing, revoking, disabling, binding, evicting and logging in, against the rows as they then are |
| LoginRuns.SignedIn | chassis/authn/resolver.go:155-231 | so a login that ends OK always had all four, cached or not |
| LoginRuns.CachedWasChecked | chassis/apppass/logincache.go:17-20 | a login skips the password check only within the time to live of a check of the same credential, hash and password |
| LoginAnswers.OutcomeExactly | chassis/authn/resolver.go:155-231 | how every full check ends, said of the rows: an unknown tenant is an error, no credential a failure, then the hash, the scopes and the user's status decide, in that order |
| LoginAnswers.CheckIsRemembered | chassis/authn/resolver.go:203-231 | a password checked once is answered from the cache for the time to live |
| LoginAnswers.RevokedIsOut | chassis/authn/resolver.go:155-231 | after a revocation no login with that credential succeeds, remembered or not |
| LoginAnswers.DisabledIsOut | chassis/authn/resolver.go:155-231 | nor, after disabling or dropping a user, any login as them |
| LoginAnswers.UnboundIsOut | chassis/authn/resolver.go:155-231 | nor, after unbinding a username, any login under it |
| LoginAnswers.IssuedIsIn | chassis/authn/resolver.go:155-231 | a credential just issued signs its active principal in wherever its scopes cover |
| BlobIndex.NameRoundTrip | chassis/blob/kvindex.go:31-34 | a name comes back from its key exactly when it holds no ':' |
| BlobIndex.KvIndex.PutName | chassis/blob/kvindex.go:50-59 | only valid names are written, so every name key is that of a valid name |
| BlobIndex.SegmentsJoin | chassis/blob/names.go:60-61 | the segments of a name hold no slash and, joined by slashes, are the name |
| BlobIndex.JoinSegments | chassis/blob/names.go:60-61 | and no other segments join to it |
| BlobIndex.ValidNameExactly | chassis/blob/names.go:49-77 | a name is valid if and only if it is at most 250 long and each segment matches the charset, is 1 to 128 long, is neither `.` nor `..` and does not begin with `_` |
| BlobIndex.KvIndex.DeleteName | chassis/blob/kvindex.go:61-63 | removes the name's key and nothing else, unchecked |
| BlobIndex.DeleteRemovesExactly | chassis/blob/kvindex.go:31-63 | of the valid names in the index a delete takes out exactly the one that is the name given with ':' read as '/' |
| BlobIndex.ColonDeletesAnother | chassis/blob/kvindex.go:61-63 | deleting `a:b` takes out `a/b` |
| BlobIndex.ListNames | chassis/blob/kvindex.go:65-100 | a page: in byte order, after the cursor, within the limit, nothing skipped, and a next cursor exactly when something is left |
| BlobIndex.ShowsWhatWasPut | chassis/blob/kvindex.go:65-86 | the rows listed under a prefix are exactly the names put that have it |
| BlobIndex.SessionOrdered | chassis/blob/kvindex.go:87-95 | following the pages lists no name twice and stays in order, even as the index changes between pages |
| BlobIndex.SessionCovers | chassis/blob/kvindex.go:87-95 | a name there for every page is listed or still ahead |
| BlobIndex.PagingIsExact | chassis/blob/kvindex.go:65-100 | of an unchanging index the pages list every matching name exactly once in byte order, and end |
| Windows.Tiling | chassis/allowance/allowance.go:53-66 | windows tile time: an instant is inside its own and no other |
| Windows.IdNamesWindow | chassis/allowance/allowance.go:53-66 | two instants and periods share an id exactly when they share the window |
| Windows.IdReads | chassis/allowance/allowance.go:53-66 | an id spells out year, month, day and hour of its window |
| Allowance.Store.Set | chassis/allowance/store.go:55-65 | a valid definition is stored and its period remembered; counters are kept |
| Allowance.Store.Delete | chassis/allowance/store.go:85-94 | the definition goes, the default period is remembered; counters are kept |
| Allowance.Store.Report | chassis/allowance/store.go:117-152 | of the three windows' counters read, the one the definition's period says, with its end |
| Allowance.UndefinedIsDaily | chassis/allowance/store.go:117-152 | an allowance without a definition is metered by the day and grants nothing |
| Allowance.Store.Period | chassis/allowance/store.go:172-191 | the cached period while young, else the defined one or the default, then remembered |
| Allowance.Store.Charge | chassis/allowance/store.go:158-170 | the counter bumped is that of the window the cached or fresh period says; nothing when the write fails |
| Allowance.Tee.WriteEvent | chassis/allowance/tee.go:53-64 | billable fuel under a valid allowance is added to its pending charge, and nothing else is |
| Allowance.AcceptExactly | chassis/allowance/tee.go:53-64 | an event adds its fuel to its own allowance's pending charge if and only if it is billable, positive and names a tenant and a well-formed allowance; no other charge changes |
| Allowance.NamedExactly | chassis/allowance/allowance.go:93-107 | the name rule, as a pattern: a letter or digit, then up to 63 more, dots, underscores or hyphens |
| Allowance.Tee.Flush | chassis/allowance/tee.go:105-120 | afterwards exactly the refused charges are pending, and per allowance pending plus counters is what it was |
| Allowance.OneOwner | chassis/allowance/store.go:51 | a counter key belongs to one allowance |
| AllowanceRuns.Conserved | chassis/allowance/tee.go:53-120 | for any nodes, flushes in flight and failures, accepted fuel is pending, in a batch or in the counters, but for writes made and not acknowledged |
| AllowanceRuns.ResentCountsTwice | chassis/kv/kv.go:551-560 | for every metered event, a charge written but not acknowledged is written again: the counter holds twice the fuel |
| AllowanceRuns.CounterIsWindow | chassis/allowance/store.go:158-170 | a window's counter is exactly what was charged by its period inside it |
| AllowanceRuns.UsedIsWindowSum | chassis/allowance/store.go:117-152 | with an unchanging period Used is all fuel charged in the current window, and exhaustion and remaining follow from it |
| AllowanceRuns.SteadyPeriod | chassis/allowance/store.go:172-205 | with an unchanging period no cached definition ever sends a charge to another window |
| Ownership.SlotOfBase | chassis/authn/owner.go:34-40 | a stack and all its slots have one base |
| Ownership.BaseWithin | chassis/authn/owner.go:34-40 | blanks around a stack and slashes before it make no other base; of nothing else there is none |
| Ownership.EarliestIsFirst | chassis/authn/owner.go:74-85 | the row that decides ownership has none created before it |
| Ownership.Store.IssueCredential | chassis/authn/credentials.go:94-162 | the checks once, then up to five inserts: the first ids that collide with nothing, or a conflict |
| Ownership.Store.BindPrincipal | chassis/authn/bindings.go:165-231 | two passes: bound already (and verified if asked, never the reverse), bound to another, inserted under the first free id, or a conflict |
| Ownership.Store.Create | chassis/authn/users.go:103-184 | the users row and its binding together, or the user the address is bound to with its binding verified if asked and its name kept, or a refusal with nothing written |
| Ownership.Store.Revoke | chassis/authn/grants.go:445-475 | the grant named ends, on behalf of its principal's owner only, and whether this call ended it |
| Ownership.Store.EndCredential | chassis/authn/credentials.go:197-230 | the credential named ends, on behalf of its principal's owner only, and whether this call ended it |
| Ownership.Store.SetDisabled | chassis/authn/users.go:186-207 | the user's status is set, on behalf of the stack that created them only |
| Ownership.Store.Put | chassis/authn/grants.go:289-370 | the two-pass put: unchanged, replaced in one transaction, new, or refused with nothing written |
| OwnershipRuns.OneCreator | chassis/authn/owner.go:11-17 | over every serial run all users, binding, credential and grant rows of a principal carry one creator stack |
| OwnershipRuns.OwnerForever | chassis/authn/owner.go:56-88 | whoever owns a principal owns it forever, revocations included |
| OwnershipRuns.OthersAreRefused | chassis/authn/owner.go:89-128 | a write by any other stack is refused and changes nothing |
| OwnershipAnswers.RefusalExactly | chassis/authn/owner.go:56-128 | a stack may write a principal if and only if it has a base, a user has a users row, and no row of the principal was written by another; else the answer names the first of these that fails |
| OwnershipAnswers.IssueExactly | chassis/authn/credentials.go:94-162 | a credential is issued if and only if the stack may write, the principal is active, fewer than 64 of its credentials live, and short id and id are new; the row written, and the error otherwise |
| OwnershipAnswers.RevokeCredentialExactly | chassis/authn/credentials.go:197-230 | a credential is revoked if and only if the stack may write its principal; exactly its row is dead then; an unknown id is not found |
| OwnershipAnswers.SetDisabledExactly | chassis/authn/users.go:186-207 | a user is disabled or enabled if and only if the stack created them; nothing else changes |
| OwnershipAnswers.BindExactly | chassis/authn/bindings.go:165-231 | a free subject is bound, one bound to the principal can only become verified, one bound to another is refused |
| OwnershipAnswers.CreateExactly | chassis/authn/users.go:103-184 | a bound address finds its user when they are the stack's and is refused otherwise; a free one makes a new active user of the stack, bound to it |
| OwnershipAnswers.PutAllowedExactly | chassis/authn/grants.go:289-300 | a grant may be written if and only if the principal has rows, all of the stack, and is active; else which error |
| OwnershipAnswers.PutGrantExactly | chassis/authn/grants.go:289-370 | a grant that says the same is kept, one that differs is ended and replaced in one step whatever the count, a new one needs fewer than 1024, and an id that is taken gives way to the second |
| OwnershipAnswers.RevokeGrantExactly | chassis/authn/grants.go:445-475 | a grant is revoked if and only if the stack may write its principal; exactly its row is dead then |
| OwnershipAnswers.RevokedForever | chassis/authn/credentials.go:197-230 | over every run a revoked credential stays so, and its short id never names another credential of the principal |
| OwnershipRows.RunGood | chassis/authn/credentials.go:94-162 | over every run an id names one row, a subject is bound to one principal, a short id names one credential of its principal, and no principal has more than 64 live credentials |
| OwnershipRows.RowsOnlyEnd | chassis/authn/owner.go:11-17 | over every run no row is deleted or rewritten: a binding may become verified, a credential or grant revoked, a user disabled or enabled, and what is revoked stays so |
| OwnershipRows.StatusExactly | chassis/authn/users.go:186-207 | a user becomes disabled, or active again, exactly when the stack that created them says so |
| OwnershipRuns.GrantsUniqueAndBounded | chassis/authn/grants.go:297-337 | at most one live grant per principal and resource, and at most MaxGrants per principal, in every run |
| OwnershipRuns.PutGrants | chassis/authn/grants.go:280-337 | a put that succeeds leaves a live grant with the verbs asked for |
| OwnershipRuns.LostExactlyByRevoking | chassis/authn/grants.go:338-475 | a held grant is lost by a step if and only if that step is a revocation of it by a stack that may; a change of verbs never loses it |

## Left out

- SQL text, dialects, row scanning, JSON and the columns that do not take part in any decision (labels, metadata, sandboxes, file keys, workspaces): tables are maps or sequences of rows.
- Run-grant request normalization, `parseAllow` and `Allows`: an allowlist is a set of resources already parsed.
- 64-bit overflow of generations, budgets, fuel and sync tokens: integers are unbounded.
- Admission, reloads and the allowance tee under concurrency are state machines over values, because several goroutines act on the same fields between each other's actions; a lease and its counters, and the tee and its store, are classes for one goroutine alone.
- Admission's lease is released only when no request on it is still on its way, as its owner does at the end of the request; a slot registered after that would never be given back.
- Admission's nil lease (which registers no decrement), rate limiters and deny decisions; a per-tenant cap across evicting and re-creating a counter, which the code does not promise.
- Calendar accounts, changes of display properties by a client, feed tokens, listing order and the time-range prefilter.
- Parsing iCalendar text: the UID, sequence and facts of a stored object come with it, and no sequence is negative. That objects of two UIDs read the same, which `PutFirst` and `PutKeepsOthers` allow for, cannot happen, because the UID is part of the text (`ReadUidsDoNotShadow`).
- Lowercasing and trimming of calendar names, usernames and addresses: those given are taken as normalized.
- go-ical's choice of where to fold and its component grammar: any folding is covered, and a rendering is its stable lines, a stamp and a sequence.
- Unicode upper-casing beyond the letters that can form the volatile property names.
- VTimezone.Build: zones with changes closer than an hour or off whole seconds get no agreement claim, because sampling by the hour cannot see them.
- Cryptography: SHA-256 is taken as free of collisions, argon2 as a deterministic check, the cost of a dummy check is not modelled.
- Login rows whose stored scopes do not decode, the last-used timestamp, and how a username is normalized.
- Expiry of allowance counters in the KV: each is kept an hour past its window's end, so none is read after it expires; and the age at which a cached definition is reread, for which any choice is allowed.
- Allowance listing.
- Blob sha ownership rows, filenames and permissions.
- Two racing first writes of a brand-new principal: ownership is stated for serial steps, as the code accepts that race.
- Credential rotation, scope and resource parsing, `Granted` and reads by resource.
- Boot, the CLI, HTTP and Caddy handlers, user interfaces and registries: input and output, or parsing of declarations.
