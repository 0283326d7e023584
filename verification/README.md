# Youthpreneur back end: verified model

A Dafny model of the stateful core of the Youthpreneur back end, with machine-checked proofs of
what it guarantees over whole runs. Check everything with `dafny verify dfyconfig.toml`.

## What is modelled

**Refresh sessions.** `Sessions` is the `refresh_sessions` table with its SQL statements, as
functions and as a class that changes the table in place. `AuthProtocol` is the protocol as a
step machine: Login, Refresh and Logout are clients with program counters and stale local copies
of the row they read; each SQL statement or transaction is one step; password changes, resets,
deactivations, user edits, the clock and aborted calls interleave freely. `AuthInvariant` and
`AuthSteps` find and keep the invariant, `AuthTheorems` holds the guarantees over runs,
`AuthCalls` those about whole calls and races, `AuthReplay` those about replays and retries and
`AuthMeaning` what each check and statement does, column by column. `AuthServer` is the use case as imperative code;
between any two statements other clients may take any number of steps, and the object's ghost
trail shows that every call is a legal part of a protocol run, so all theorems apply to it.

**Passwords.** `Passwords` is the step machine of ChangePassword (read and verify, hash, compare
and set, revoke sessions), ResetPassword and UpdateStatus, with the history of every hash a user ever had
and the sessions the calls end.
`Accounts` is the user use case as imperative code over it, ending in the session revocation.

**Training enrollment.** `Enrollments` has each transaction as one atomic step and the invariant
they keep, `EnrollmentTheorems` the capacity and lifecycle guarantees, `EnrollmentLocks` the
same transactions statement by statement under their different row locks, with a proof that
every schedule is a run of the atomic ones in commit order; `EnrollmentRuns` carries the
guarantees over to schedules; `EnrollmentMeaning` says what each transaction refuses and writes. `EnrollmentStore` is the repository and the Enroll retry loop in
imperative form.

**Enterprises.** `Enterprises` is the field-by-field merge that collects an audit diff,
`Turnover` the decimal normalisation, `EnterpriseAudit` the rows and their event log with replay,
`EnterpriseMeaning` what each call refuses and writes,
`EnterpriseStore` the repository and use case in imperative form.

**Pagination** is the limit-plus-one cut and the cursor walk behind six listings, proved once
for both directions. **RateLimit** is the fixed-window limiter with its sweep.

## Results that differ from the documentation

- `README.md:61-62` of the repository says that replaying a token revokes all sessions of the
  user. The code revokes the token's family only (`internal/usecase/auth_usecase.go:199-204`),
  and so does the model.
- Replay is not always contained. When the replayed row is gone by the time the call looks it
  up, because it has expired and the call's own or another cleanup deleted it, nothing is
  revoked and a live successor stays live. `AuthReplay.ReplayContainment` says under any
  interference exactly when containment holds, `AuthReplay.ReplayAlone` says it on the starting
  state, and `AuthReplay.ExpiredReplayEscapes` is a run in which it fails.
- The grace promise is not always kept. A duplicate inside its window is refused exactly when
  its row is gone at the lookup, a revocation has closed the window, the user is no longer
  usable or the sealed token does not open (`AuthReplay.RetryServed`);
  `AuthReplay.RetryRefused` is a run in which only the call's own cleanup is to blame.
- Logging out with an already rotated token leaves the successor alive
  (`AuthTheorems.LogoutEndsFamilyIff`, with the run `AuthReplay.LogoutMissesSuccessor`).
- Reservations can exceed the limit in exactly two ways, lowering `max_slots` and reinstating a
  rejected enrollment (`EnrollmentTheorems.ReservedIff`, with runs that do it).
- Accepted enrollments can exceed the limit in exactly one way, lowering `max_slots` below them
  (`EnrollmentTheorems.SeatsWithinIff`, `EnrollmentTheorems.RunSeats`, with a run that does it).
- Owner scoping takes a non-admin with id zero for an admin, and the update and delete calls
  have no guard against it as the create call has (`EnterpriseAudit.MemberIsConfined`, with the call `EnterpriseAudit.IdZeroEscapes`). Stored
  users have positive ids.
- An audit event would misdescribe a turnover given in any spelling but the column's, so replay
  rests on `normalizeTurnover` (`EnterpriseAudit.RawTurnoverDescribedIff`).

## Assumptions

SHA-256 is injective; what AES-GCM sealed opens to the same token; refresh tokens, family ids
and bcrypt salts are never drawn twice; a client presents a token only after its row was
committed, or a string that was never generated; the clock does not go back; the refresh
lifetime does not change while the service runs; bcrypt accepts exactly the password a hash was
made from. Ids are positive.

## Model

| member | source | states |
|---|---|---|
| Sessions.SessionTable.RotateRefreshSession | internal/repository/persistence/auth_postgres.go:61-132 | succeeds exactly for a stored, unrevoked, unexpired row and a free new hash; then every column of the old and the new row is as given and all other rows are untouched; otherwise nothing changes |
| Sessions.SessionTable.RevokeRefreshSession | internal/repository/persistence/auth_postgres.go:134-153 | the row of the token ends revoked and without a grace window, with this time and reason only if nothing had revoked it before; every other row is untouched |
| Sessions.SessionTable.RevokeUserRefreshSessions | internal/repository/persistence/auth_postgres.go:155-175 | every row of the user ends revoked and without a grace window, with this time and reason only if nothing had revoked it before, identity, expiry and replacement pointer unchanged; every other row is untouched |
| Sessions.SessionTable.RevokeRefreshSessionFamily | internal/repository/persistence/auth_postgres.go:177-196 | the same for every row of the family and for no other row |
| Sessions.SessionTable.DeleteExpiredRefreshSessions | internal/repository/persistence/auth_postgres.go:198-208 | no row that is live at the given time or later goes; a row stays, unchanged, exactly if it has not expired |
| AuthSteps.StepKeeps | internal/usecase/auth_usecase.go:169-365 | every step of every client keeps the protocol invariant over rows, stale copies, chains and redemptions |
| AuthSteps.RunKeeps | internal/usecase/auth_usecase.go:169-365 | so does every schedule of steps, and the history only grows |
| AuthTheorems.RetryAgreement | internal/usecase/auth_usecase.go:169-308 | over every interleaving, all successful redemptions of one token return the same refresh token and at most one of them rotated |
| AuthTheorems.RedemptionBounds | internal/usecase/auth_usecase.go:179-308 | no token is redeemed ten seconds or more past its expiry even when every cleanup fails, and the expiry handed to the client never exceeds the replacement's own |
| AuthTheorems.FamilyChain | internal/repository/persistence/auth_postgres.go:61-132 | in every reachable state the rows of a family are one chain of one user, each rotated row pointing to the next, expiry never decreasing, only the last row not rotated away |
| AuthTheorems.AtMostOneUnrevoked | internal/repository/persistence/auth_postgres.go:79-112 | no family ever has two unrevoked rows |
| AuthTheorems.CleanupRemovesPrefix | internal/repository/persistence/auth_postgres.go:198-208 | cleanup removes a prefix of every family chain and leaves a chain |
| AuthTheorems.RunEvolves | internal/repository/persistence/auth_postgres.go:134-208 | over any run revocation, reason and replacement pointer are written once, a grace deadline can only vanish, and a deleted row never returns |
| AuthTheorems.FamilyRevokeIsFinal | internal/repository/persistence/auth_postgres.go:177-196 | once a family revocation commits no row of the family is live or grace-servable again, whatever calls that had read it go on to do |
| AuthTheorems.RevokedFamilyServesNothing | internal/usecase/auth_usecase.go:191-205 | so in every later state a lookup of any token of the family is treated as a replay: nothing to serve, nothing to rotate |
| AuthTheorems.UserRevokeIsFinal | internal/usecase/user_usecase.go:257-349 | the same for every family a user had when the user's sessions were revoked |
| AuthTheorems.UsableNeedsLogin | internal/usecase/user_usecase.go:257-349 | after a user's sessions were revoked, any row of the user that is live or grace-servable in any later state is in a family that a login of that same user opened since, and that login verified the password after the revocation or was already under way |
| AuthReplay.LoginUnderWayOpens | internal/usecase/auth_usecase.go:139-166 | a run in which a login under way at the revocation opens a live session afterwards |
| AuthTheorems.LogoutEndsFamilyIff | internal/usecase/auth_usecase.go:311-322 | logout ends a family if and only if it was given the unrevoked row or the family had ended before |
| AuthReplay.LogoutMissesSuccessor | internal/usecase/auth_usecase.go:311-322 | a reachable state in which logging out with a rotated token leaves its successor live |
| AuthTheorems.LogoutFinality | internal/usecase/auth_usecase.go:311-322 | after logging out with the live token the family never has an unrevoked row, and whatever its grace windows hand out is revoked or gone |
| AuthReplay.ReplayContainment | internal/usecase/auth_usecase.go:191-205 | a revoked token outside grace is presented: whatever others do before and after its lookup, the family ends dead if and only if the row is still stored at the lookup or what is then stored of the family is unusable; if the row is gone the call revokes nothing |
| AuthReplay.ReplayTouchesFamilyOnly | internal/repository/persistence/auth_postgres.go:177-196 | the call's revocation changes no row of another family and redeems nothing |
| AuthReplay.ReplayAlone | internal/usecase/auth_usecase.go:179-205 | with nothing in between, judged on the starting state: contained unless the row has expired, the call's cleanup succeeds and the family has an unexpired usable row; unexpired rows of other families are untouched |
| AuthReplay.ExpiredReplayEscapes | internal/usecase/auth_usecase.go:177-188 | a reachable state in which a replay is not contained: the replayed row had expired and its successor stays live |
| AuthReplay.RetryServed | internal/usecase/auth_usecase.go:191-197 | a duplicate inside the grace window is presented: under any interference the call returns the rotation's replacement if and only if at its lookup the row is stored with its window not closed, the user is usable when checked again, and the sealed token opens |
| AuthReplay.RetryAlone | internal/usecase/auth_usecase.go:177-197 | with nothing in between: served exactly unless the row has expired and the call's cleanup succeeds, the user is unusable, or the sealed token does not open |
| AuthReplay.RetryRefused | internal/usecase/auth_usecase.go:177-188 | a reachable state in which a duplicate inside its window is refused: rotated at 95 of 100 seconds, presented at 101 |
| AuthCalls.SingleWinner | internal/repository/persistence/auth_postgres.go:79-112 | once a rotation of a token commits, no other pending rotation of it succeeds, now or later |
| AuthCalls.Refreshed | internal/usecase/auth_usecase.go:169-267 | an uninterrupted Refresh of a live session returns a new token with one live row in the family, created now, and leaves the old row revoked now as rotated, its token servable for exactly ten more seconds; exactly the expired rows go if its cleanup succeeds, and every other row is as it was |
| AuthMeaning.RotationChecksUser | internal/usecase/auth_usecase.go:210-219 | a call goes on to rotate exactly for a user that is stored, active and not deleted; any other ends it without a trace |
| AuthMeaning.GraceChecksUser | internal/usecase/auth_usecase.go:273-308 | the grace window is served exactly for such a user when the seal opens, with the presented session's expiry, and writes nothing |
| AuthMeaning.LoginChecksUser | internal/usecase/auth_usecase.go:153-158 | a login gets past verification exactly for such a user |
| AuthMeaning.RedeemingNeedsActive | internal/usecase/auth_usecase.go:169-308 | in every run, a call that redeems a token met a stored, active and undeleted account at a check of its own |
| AuthMeaning.ReplayWrites | internal/usecase/auth_usecase.go:199-204 | the family's unrevoked rows end revoked as a replay at the instant the call captured |
| AuthMeaning.UnixRoundsDown | internal/usecase/auth_usecase.go:179-206 | Unix time is the last whole second at or before the instant |
| AuthServer.Server.Refresh | internal/usecase/auth_usecase.go:169-267 | under interference, the call's own actions are capture of the instant, cleanup, lookup and then those prescribed by the row the table held at the lookup; it succeeds only after a check of its own met a stored, active and undeleted user; an internal error is answered only where a lookup, signing or write failed; the result is the redemption the protocol records, and an empty token changes nothing |
| AuthServer.Server.Decide | internal/usecase/auth_usecase.go:191-267 | for each kind of row, the actions and the kind of answer that follow |
| AuthServer.Server.RotateOnce | internal/usecase/auth_usecase.go:234-266 | succeeds exactly when the rotation transaction does, and returns the token the protocol records |
| AuthServer.Server.ServeGraceWindow | internal/usecase/auth_usecase.go:273-308 | the sealed replacement with the presented session's expiry, if the user is usable and the seal opens; an invalid token otherwise; an internal error only if a lookup or signing failed |
| AuthServer.Server.Login | internal/usecase/auth_usecase.go:139-166 | invalid credentials exactly for empty input, a missing, inactive or deleted user or an unverified password, an internal error exactly when the user lookup, signing or the insert failed; on success both expiries count from the instant the call captured from the clock, and the token's row is live, the user's, created then, and alone in its family |
| AuthServer.Server.Logout | internal/usecase/auth_usecase.go:311-322 | one statement on the presented row; an empty token changes nothing |
| Passwords.StepKeeps | internal/usecase/user_usecase.go:278-338 | every step keeps the history: no hash stored twice, each change right after the hash it verified, pending hashes distinct and unstored |
| Passwords.SwapSucceedsIff | internal/repository/persistence/user_postgres.go:315-336 | in every interleaving the compare-and-set stores the new hash if and only if the account is undeleted and no password was stored since the call verified one |
| Passwords.VerifyChecks | internal/usecase/user_usecase.go:287-294 | verification lets a call on exactly if the account is not deleted and its hash was made from the password shown |
| Passwords.ResetWrites | internal/repository/persistence/user_postgres.go:294-313 | a reset stores the new hash of any undeleted account and changes nothing else of any account |
| Passwords.SetActiveWrites | internal/repository/persistence/user_postgres.go:270-292 | the status update stores the flag it was given for an undeleted account and nothing else; for any other nothing changes |
| Passwords.SessionsEndOnlyOnSuccess | internal/usecase/user_usecase.go:343-349 | of all steps only the last of a successful call touches the sessions; it revokes exactly the user's, for the reason of the call |
| Passwords.OneChangePerHash | internal/usecase/user_usecase.go:302-311 | a change replaced exactly the hash it verified, which the given current password opens, and no two changes replaced the same hash |
| Passwords.OvertakenIsRefused | internal/usecase/user_usecase.go:302-311 | once a reset or a rival change was stored after a call verified, its swap is refused in every continuation and changes no account |
| Passwords.RunExtends | internal/repository/persistence/user_postgres.go:294-336 | stored passwords are only ever followed by newer ones |
| Accounts.AccountService.ChangePassword | internal/usecase/user_usecase.go:278-314 | under interference, success means the stored hash replaced one made from the current password, and the call's last action revoked exactly the user's sessions as a password change; a missing user, a wrong or overtaken password and a failed revocation are told apart exactly and revoke nothing, and a password outside 8 to 72 characters changes nothing |
| Accounts.AccountService.ResetPassword | internal/usecase/user_usecase.go:318-338 | success means a hash of the new password was stored by a reset, and the call's last action revoked exactly the user's sessions as an admin reset; any other answer revokes nothing |
| Accounts.AccountService.UpdateStatus | internal/usecase/user_usecase.go:257-274 | the first action writes exactly the flag asked for; a reported deactivation ends with the revocation of exactly the user's sessions; a user found missing before the write or at the read after it is reported, and the call then revokes nothing |
| Accounts.AccountService.SwapStored | internal/repository/persistence/user_postgres.go:315-336 | writes the hash, and nothing else, exactly when the account is undeleted and still has the verified hash, and reports which |
| Enrollments.ApplyKeeps | internal/repository/persistence/training_enrollment_postgres.go:47-306 | every transaction keeps registered_count equal to the undeleted accepted enrollments, cancelled equal to deleted, one undeleted enrollment per user and catalog, and ordered dates |
| Enrollments.RunKeeps | internal/repository/persistence/training_enrollment_postgres.go:47-306 | so does every run of transactions |
| EnrollmentTheorems.NeverClamps | internal/repository/persistence/training_enrollment_postgres.go:278-299 | GREATEST(0, count - 1) is always count - 1 |
| EnrollmentTheorems.AcceptIff | internal/repository/persistence/training_enrollment_postgres.go:184-196 | a move to accepted is refused exactly when the seats taken have reached the limit; otherwise it adds exactly that seat and stays within the limit |
| EnrollmentTheorems.SeatsWithinIff | internal/repository/persistence/training_catalog_postgres.go:257-302 | a committed transaction takes seats over the limit if and only if it sets the limit below the seats taken |
| EnrollmentTheorems.RunSeats | internal/repository/persistence/training_enrollment_postgres.go:184-196 | in every run in which no limit is set below the seats then taken, accepted enrollments never exceed a set limit, reinstatements included |
| EnrollmentTheorems.LoweringCutsSeats | internal/repository/persistence/training_catalog_postgres.go:276-278 | a run in which lowering the limit leaves more accepted enrollments than places |
| EnrollmentTheorems.LimitStays | internal/repository/persistence/training_catalog_postgres.go:276-278 | a set limit never returns to unlimited in any run |
| EnrollmentTheorems.ReservedIff | internal/repository/persistence/training_enrollment_postgres.go:57-103 | pending plus accepted stays within the limit, unless the transaction lowers the limit below them or reinstates a rejected row with none left, and then it does not |
| EnrollmentTheorems.RunReserved | internal/repository/persistence/training_enrollment_postgres.go:57-103 | in every run without those two, reservations always fit |
| EnrollmentTheorems.PendingCanBeAccepted | internal/repository/persistence/training_enrollment_postgres.go:184-196 | where reservations fit, accepting a pending enrollment never fails as full |
| EnrollmentTheorems.LoweringBreaks | internal/repository/persistence/training_catalog_postgres.go:276-278 | a run in which lowering the limit leaves more reservations than places |
| EnrollmentTheorems.ReinstatingBreaks | internal/repository/persistence/training_enrollment_postgres.go:184-207 | a run in which reinstating a rejected enrollment does |
| EnrollmentTheorems.CancelledIsFinal | internal/repository/persistence/training_enrollment_postgres.go:209-224 | a cancelled enrollment never changes again |
| EnrollmentTheorems.IdentityIsFixed | internal/repository/persistence/training_enrollment_postgres.go:105-135 | no enrollment disappears or changes user or catalog |
| EnrollmentTheorems.ReenrollAfterCancel | internal/repository/persistence/training_enrollment_postgres.go:57-103 | after cancelling from an open catalog, re-enrolling succeeds exactly when a reservation is left |
| EnrollmentLocks.StepKeeps | internal/repository/persistence/training_enrollment_postgres.go:57-306 | what each transaction learned under its own locks stays true while others run; Create's count is stale only upward, because cancellation does not take the catalog lock |
| EnrollmentLocks.CommitIsAtomic | internal/repository/persistence/training_enrollment_postgres.go:137-306 | a commit publishes exactly what the atomic transaction would do on the data committed at that moment |
| EnrollmentLocks.FailureIsAtomic | internal/repository/persistence/training_enrollment_postgres.go:57-135 | a failing statement returns the error the atomic transaction would return then |
| EnrollmentLocks.Serializable | internal/repository/persistence/training_enrollment_postgres.go:47-306 | the data committed by any schedule of statements is that of the atomic transactions in commit order, all of them succeeding |
| EnrollmentRuns.InterleavedConsistent | internal/repository/persistence/training_enrollment_postgres.go:47-306 | count, lifecycle and uniqueness hold after every schedule of statements |
| EnrollmentRuns.InterleavedReserved | internal/repository/persistence/training_enrollment_postgres.go:57-196 | in harmless schedules reservations fit at every moment and the statement that accepts a pending enrollment never fails |
| EnrollmentRuns.InterleavedSeats | internal/repository/persistence/training_enrollment_postgres.go:150-244 | the same accept safety after every schedule of statements |
| EnrollmentRuns.InterleavedNeverClamps | internal/repository/persistence/training_enrollment_postgres.go:197-207 | in every schedule no decrement about to be published clamps, of a cancellation or of a status update away from accepted |
| EnrollmentRuns.InterleavedCancelledIsFinal | internal/repository/persistence/training_enrollment_postgres.go:262-287 | cancelled rows are frozen between any two moments of a schedule |
| EnrollmentMeaning.CreateWrites | internal/repository/persistence/training_enrollment_postgres.go:57-135 | each refusal exactly in its case and order; otherwise one pending enrollment is added and nothing else changes |
| EnrollmentMeaning.UpdateStatusWrites | internal/repository/persistence/training_enrollment_postgres.go:150-244 | refused exactly for a missing or deleted enrollment and a move into a full catalog; otherwise the status asked for is stored, the count moves by exactly one when accepted is entered or left, and no other row changes |
| EnrollmentMeaning.CancelWrites | internal/repository/persistence/training_enrollment_postgres.go:246-306 | refused exactly for a missing or deleted enrollment or another user's; otherwise cancelled and deleted now, with a counted seat taken back |
| EnrollmentMeaning.UpdateCatalogWrites | internal/repository/persistence/training_catalog_postgres.go:257-302 | each column is exactly the one given or the one there, the time is the update's, and each refusal has its case |
| EnrollmentMeaning.AddCatalogWrites | internal/repository/persistence/training_catalog_postgres.go:61-95 | a new catalog has the columns given, nobody registered and is not deleted |
| EnrollmentMeaning.DeleteCatalogWrites | internal/repository/persistence/training_catalog_postgres.go:235-255 | deletion stamps an undeleted catalog and touches nothing else |
| EnrollmentMeaning.CommittedStatus | internal/repository/persistence/training_enrollment_postgres.go:209-244 | among interleaved statements, the commit of a status update publishes the status asked for |
| EnrollmentStore.Store.CreateTrainingEnrollment | internal/repository/persistence/training_enrollment_postgres.go:47-148 | performs the atomic transaction or returns its error and changes nothing |
| EnrollmentStore.Store.UpdateTrainingEnrollmentStatus | internal/repository/persistence/training_enrollment_postgres.go:150-244 | performs the atomic transaction or returns its error and changes nothing; on success the row has the status asked for and no other enrollment changed |
| EnrollmentStore.Store.CancelTrainingEnrollment | internal/repository/persistence/training_enrollment_postgres.go:246-306 | likewise for cancellation within the caller's scope |
| EnrollmentStore.Store.UpdateTrainingCatalog | internal/repository/persistence/training_catalog_postgres.go:159-233 | likewise for the merged catalog update with its date check |
| EnrollmentStore.Store.Enroll | internal/usecase/training_enrollment_usecase.go:132-179 | the outcome is the one determined by the identifiers drawn |
| EnrollmentStore.EnrollOutcome | internal/usecase/training_enrollment_usecase.go:151-178 | Enroll adds one row under the first free identifier, and runs out of identifiers exactly when all drawn are taken and nothing else stands in the way |
| Turnover.NormalizeTurnover | internal/usecase/enterprise_usecase.go:883-902 | refuses exactly what the pattern refuses and otherwise returns the NUMERIC(15,2) spelling of the amount given |
| Turnover.AmountFits | internal/usecase/enterprise_usecase.go:38 | every accepted amount is below 10^13 |
| Turnover.PrintReadsBack | internal/usecase/enterprise_usecase.go:883-902 | normalisation is inverse to printing cents, for every amount the column holds |
| Turnover.Idempotent | internal/usecase/enterprise_usecase.go:883-902 | normalising twice is normalising once |
| Turnover.SpellingsDifferIff | internal/repository/persistence/enterprise_postgres.go:582-593 | two inputs have the same spelling exactly when they are the same amount, and differ from the stored text exactly when the amounts differ |
| Turnover.SpelledIff | internal/usecase/enterprise_usecase.go:883-902 | the column's spelling is exactly digits without a leading zero, a dot and two decimals, with nothing around them |
| Turnover.MatchesIff | internal/usecase/enterprise_usecase.go:38 | accepted is exactly one to thirteen digits, alone or followed by a dot and one or two digits |
| Turnover.WorthOf | internal/usecase/enterprise_usecase.go:883-902 | what such a text is worth in cents, missing decimals counting as zeros |
| Turnover.TrimTakesSpace | internal/usecase/enterprise_usecase.go:884 | trimming takes white space off both ends and nothing else |
| Enterprises.ApplyEnterpriseUpdate | internal/repository/persistence/enterprise_postgres.go:499-608 | gives every field its target and collects exactly the fields that change, with null for an emptied optional one |
| EnterpriseAudit.ApplyKeeps | internal/repository/persistence/enterprise_postgres.go:350-495 | every create, update and delete keeps every row in agreement with its log |
| EnterpriseAudit.AuditReplay | internal/usecase/enterprise_usecase.go:342-364 | after any run, folding a row's events from an empty record rebuilds every mutable field, and created_at and updated_at are those of the first and last event |
| EnterpriseAudit.AuditIsExact | internal/repository/persistence/enterprise_postgres.go:382-385 | an update event is never empty and names a field exactly when replaying it changes that field |
| EnterpriseAudit.CreateDescribes | internal/usecase/enterprise_usecase.go:342-364 | the sixteen fields of a create event rebuild the new row, dispora_support being empty then |
| EnterpriseAudit.TurnoverRecordedIff | internal/repository/persistence/enterprise_postgres.go:588-593 | an update records a turnover exactly when the number changes |
| EnterpriseAudit.RawTurnoverDescribedIff | internal/repository/persistence/enterprise_postgres.go:588-593 | without normalisation the event describes the stored row exactly when the text has no blanks around it, no leading zero and two decimals |
| EnterpriseAudit.MemberIsConfined | internal/usecase/enterprise_usecase.go:760-780 | a non-admin call changes a row of another owner if and only if the caller's id is zero and the call writes that row, so real members are confined; no non-admin changes an admin-only field |
| EnterpriseAudit.IdZeroEscapes | internal/usecase/enterprise_usecase.go:730-756 | a call by a non-admin with id zero that deletes another user's enterprise |
| EnterpriseAudit.OthersLeaveAlone | internal/usecase/enterprise_usecase.go:774-780 | in every run of other members' calls a row and its log stand still |
| EnterpriseAudit.DeletedIsFinal | internal/repository/persistence/enterprise_postgres.go:455-495 | a deleted row and its log never change again |
| EnterpriseMeaning.ChangeWrites | internal/repository/persistence/enterprise_postgres.go:350-453 | an accepted update gives every field the value asked for, both turnovers in the column's spelling, keeps identity and other rows, and appends the caller's event with exactly the changed fields, or nothing when none changed |
| EnterpriseMeaning.ChangeRefused | internal/usecase/enterprise_usecase.go:566-726 | each refusal of an update exactly in its case: a member asking for one of nine assessment fields, an empty name or sector or a bad turnover, a row missing or out of scope, an empty status |
| EnterpriseMeaning.RegisterWrites | internal/usecase/enterprise_usecase.go:239-378 | each refusal in its case; otherwise the caller's active row with the columns given and the caller's create event with every field but dispora_support |
| EnterpriseMeaning.RemoveWrites | internal/repository/persistence/enterprise_postgres.go:455-495 | refused exactly for a row missing or out of scope; otherwise the row is stamped and the caller's delete event appended |
| EnterpriseStore.Store.CreateEnterprise | internal/usecase/enterprise_usecase.go:239-378 | registers under the first free of five drawn identifiers; each error occurs exactly in its own case and changes nothing |
| EnterpriseStore.Store.UpdateEnterprise | internal/usecase/enterprise_usecase.go:566-726 | the result or error of the atomic call, keeping every row in agreement with its log |
| EnterpriseStore.Store.ChangeEnterprise | internal/repository/persistence/enterprise_postgres.go:350-453 | locks, merges and writes row and event together; an empty diff writes neither |
| EnterpriseStore.Store.DeleteEnterprise | internal/usecase/enterprise_usecase.go:730-756 | soft-deletes within the actor's scope with its event, or changes nothing |
| EnterpriseStore.Store.SoftDeleteEnterprise | internal/repository/persistence/enterprise_postgres.go:455-495 | row and event change together, or neither |
| Pagination.ReadPage | internal/usecase/enterprise_usecase.go:397-419 | given the query's rows for the clamped limit and one more, the page holds the first matching ids past the cursor in order, all of them up to the next cursor or all of them when there is none |
| Pagination.ClampLimit | internal/usecase/user_usecase.go:435-444 | a limit from 1 to 100 stands, a larger one becomes 100, and any other the default |
| Pagination.PageContents | internal/repository/persistence/training_catalog_postgres.go:22-49 | a page holds the first matching ids past the cursor in order, and all of them up to the next cursor, or all of them when there is none |
| Pagination.WalkInOrder | internal/usecase/training_catalog_usecase.go:211-231 | over any changes to the table a walk returns ids strictly in order, so none twice |
| Pagination.WalkComplete | internal/usecase/training_catalog_usecase.go:211-231 | a completed walk returns every id that matched throughout, exactly once |
| Pagination.DescendingEnds | internal/usecase/enterprise_usecase.go:462-493 | a descending walk always ends, whatever happens to the table |
| Pagination.FixedTable | internal/usecase/user_usecase.go:352-380 | on a fixed table the pages concatenate to the whole ordered listing in the computed number of pages |
| Pagination.PageCountIsCeiling | internal/usecase/user_usecase.go:352-380 | that number is the least that holds all rows, and at least one |
| RateLimit.RateLimiter.Allow | internal/delivery/http/middleware/ratelimit.go:59-81 | decides and updates the windows as the limiter's step prescribes, sweeping beyond the bound |
| RateLimit.RateLimiter.SweepLocked | internal/delivery/http/middleware/ratelimit.go:84-90 | deletes exactly the expired windows, in whatever order they are visited |
| RateLimit.SweepIsInvisible | internal/delivery/http/middleware/ratelimit.go:59-90 | on every request sequence with a monotone clock the decisions are those of a limiter that never deletes a window |
| RateLimit.KeysAreIndependent | internal/delivery/http/middleware/ratelimit.go:63-80 | the decisions for one key are those it would get alone |
| RateLimit.RateBound | internal/delivery/http/middleware/ratelimit.go:63-80 | any half-open span of k intervals admits at most (k + 1) times the limit for one key |
| RateLimit.RefusedIff | internal/delivery/http/middleware/ratelimit.go:63-80 | on every request sequence, a request is refused if and only if the fixed window its key is in, by the request times, still stands and exactly the limit has been admitted in it |
| RateLimit.RefusedOnlyAfterLimit | internal/delivery/http/middleware/ratelimit.go:63-80 | nobody is refused before at least the limit of the key's requests was admitted within the interval ending then |
| RateLimit.PreviousWindowCounts | internal/delivery/http/middleware/ratelimit.go:63-72 | a run in which more than the limit lies in that interval, part of it from the window before |
| RateLimit.RetryAfterIsExact | internal/delivery/http/middleware/ratelimit.go:46-57 | a rejected client is admitted again exactly from the time left on, and at the advertised second |
| RateLimit.HeaderIsLeast | internal/delivery/http/middleware/ratelimit.go:46-57 | the header is the least whole number of seconds above the time left |

## Left out

- Handlers, routing, CORS, logging, JSON, configuration, migrations, uploads, static files, SSH tunnel: plumbing over libraries.
- bcrypt, JWT, AES-GCM, SHA-256 and random generation: used through the assumptions above; bcrypt's length limit beyond the accepted 72 bytes and `newFamilyID`'s bit layout are not modelled.
- Access tokens carry only their expiry; signing failures before a write are covered by aborted calls.
- PostgreSQL READ COMMITTED snapshot effects inside one statement and deadlock detection: a statement is one step, a client waits for a lock by not stepping, and no deadlock-freedom is claimed.
- The expiry of refresh tokens assumes one lifetime; rows issued under another configured lifetime are not modelled.
- AuthServer.Server.Yield: stands for other clients; its body takes no step, and only its contract, any number of steps, is used. Accounts.AccountService.Yield likewise, where other session statements are MoveSessions steps that may change the sessions in any way.
- Database failures are outcomes of Refresh, Login and the session revocations of the user use case; elsewhere a failed statement rolls back and is not a branch of its own. Where calls interleave, giving up is the Abort step.
- AuthServer.Server.Login: takes the account the e-mail names and bcrypt's verdict as inputs; how the stored hash is verified is in Passwords.
- AuthServer.Server.Logout: does not model a failing statement, which changes nothing and is reported.
- AuthTheorems.UserRevokeIsFinal: says nothing of families opened later; what can open those is stated by AuthTheorems.UsableNeedsLogin.
- Enrollment eligibility (age, dates, profile), text normalisation, enum whitelists, length checks and e-mail patterns: each settled by one branch. The model's text fields arrive trimmed and validated; only turnovers are normalised here.
- The numeric column accepts spellings, such as exponents, that the use case never sends; EnterpriseAudit treats those as failing casts.
- CSV seeders: their own turnover normalisation is not canonical, so rows they write are outside audit replay.
- Rows from before migration 000008, which may be deleted while pending: a fresh schema is assumed.
- Listing filters, joins and ILIKE search are an opaque choice of the ids shown at each query; an ascending walk over a table that keeps growing need not end, so no termination is claimed for it.
- RateLimit.RateBound: requires a limit of at least one; with a smaller one the code still admits the first request of each window.
- RateLimit.RetryAfterIsExact: the header's float seconds are modelled by integer division, which agrees below the precision of a float64.
- The retry loops of CreateUser and CreateTrainingCatalog are the shape of Enroll and CreateEnterprise again.
