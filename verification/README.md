# Authentication core: a verified model

This project models the authentication and authorization core of a NestJS service and proves what
it promises: TOTP and base32, refresh-token rotation, login lockout, two-factor login and recovery
codes, password reset, role-based access, sort expressions and pagination.

It has three layers.

* **Specification functions.** Each table (`Accounts`, `TokenTable`, `SecondFactor`, `Resets`, `Rbac`)
  is a value, each repository update a function on it, and each service call (`Sessions`, `Auth`) one
  function from tables to tables and an answer. SHA-256, HMAC-SHA-1 and argon2 are parameters,
  argon2 may throw; ids, secrets, row orders and instants are arguments.
* **The services as they are written.** Classes with the repositories' tables as fields
  (`RefreshTokens`, `UserAccounts`, `TwoFactor`, `PasswordReset`, `AuthServices`, `RbacServices`) and
  methods that update them step by step, with the loops of the source. Each method is proved to leave
  exactly the tables and the answer of its specification function. The two base32 loops and the
  verification loop are methods in `Base32` and `Totp`, on 32-bit words defined in `Words`.
* **Properties of every run.** `World` is the whole system: four tables, the tokens signed so far and a
  clock that never goes backwards. A trace is any sequence, in any order and by anyone, of the calls that
  touch these tables (registration, login, its second step, refresh, logout, password change and reset,
  two-factor setup, enabling and disabling, and creating, updating and removing users), and
  `SessionSafety`, `AccountSafety`, `LockoutSafety`, `ResetSafety`, `FactorSafety` and `SessionOrigins`
  prove what never goes wrong along any of them, `RoundTrips` that what was handed out works later and
  exactly how long. `Decisions` states when each call succeeds, how it is answered otherwise and what it
  stores, on the tables alone, and `Causes` what must have happened when something changed. `TokenSteps`
  goes one level lower for refresh tokens: single repository calls of any number of requests interleave
  freely and any request may be abandoned midway.

Two granularities are needed because the services read and then write without a transaction. The
structure of the token links survives every interleaving (`TokenSteps`), and cutting a user off does so
exactly when `TokenSteps.CutOffExact` says; at-most-once and counting properties are stated for whole
calls (`World`), and `TokenSteps.RaceDoubles` shows that they need it. `TokenSteps.RotateIsRun` connects
the two: the atomic rotation is the uninterrupted run of its repository calls.

Automatic induction is switched off on every lemma, so each proof shows what it needs.

Check everything with `dafny verify dfyconfig.toml --resource-limit 2000000`.

## Model

| member | source | states |
|---|---|---|
| Base32.Base32Encode | src/modules/auth/totp.util.ts:14-30 | the two nested loops over a never-masked, wrapping 32-bit accumulator produce the unbounded bit-string encoding; fewer than 5 bits are pending after each byte |
| Base32.BytesBitsAt | src/modules/auth/totp.util.ts:14-30 | the bit string the encoding is stated on has the bits of each byte, most significant first, at its place |
| Base32.EncodedSlices | src/modules/auth/totp.util.ts:14-30 | section 6 of RFC 4648: ceil(8n/5) characters, the i-th naming the i-th 5-bit slice of the big-endian bit string followed by zero bits |
| Base32.Base32Decode | src/modules/auth/totp.util.ts:33-51 | the decoding loop, skipping unknown characters, yields the whole bytes of the bit string the indices spell; fewer than 8 bits stay pending |
| Base32.RoundTrip | src/modules/auth/totp.util.ts:14-51 | decoding an encoding gives back the bytes, for every byte string |
| Base32.LowerRoundTrip | src/modules/auth/totp.util.ts:14-51 | a secret typed in small letters decodes to the same bytes |
| Base32.DecodeIgnoresCase | src/modules/auth/totp.util.ts:34-34 | texts, ASCII or not, that are equal up to the case of ASCII letters decode alike |
| Text.CaseExact | src/modules/auth/totp.util.ts:34-34 | case mapping of ASCII letters by code point |
| Base32.DecodeIgnoresJunk | src/modules/auth/totp.util.ts:34-42 | inserting any characters without a capital in the alphabet, anywhere in any text, changes nothing; characters whose capitals are ASCII letters, such as a sharp s, are not among them |
| Base32.ReEncode | src/modules/auth/totp.util.ts:14-51 | on clean text, encoding a decoding gives the text back if and only if fewer than 5 bits are left over and all of them are zero |
| Totp.CounterBytesValue | src/modules/auth/totp.util.ts:60-61 | the eight message bytes are the counter, most significant first |
| Totp.TruncateIsWord | src/modules/auth/totp.util.ts:63-68 | for every 20-byte digest truncation stays in bounds, is never negative under signed 32-bit shifts, and equals the masked big-endian word of section 5.3 of RFC 4226 |
| Totp.HotpDigits | src/modules/auth/totp.util.ts:59-70 | a code is always exactly six digits and reads back as that word modulo 10^6 |
| Totp.CounterExact | src/modules/auth/totp.util.ts:74-87 | the counter is k exactly from 30000 k to 30000 (k + 1) ms after the epoch, for every instant (section 4.2 of RFC 6238) |
| Totp.VerifyTotp | src/modules/auth/totp.util.ts:82-94 | the window loop equals the ordered scan of VerifyExact and VerifyEdges, range failure included |
| Totp.VerifyExact | src/modules/auth/totp.util.ts:82-94 | accepted tokens are exactly the codes of the 30-second steps at most window away from the one the instant lies in (section 5.2 of RFC 6238) |
| Totp.VerifyEdges | src/modules/auth/totp.util.ts:82-94 | malformed tokens and empty windows are refused; earlier than 30000 * window ms after the epoch every well-formed token fails |
| Totp.Drift | src/modules/auth/totp.util.ts:73-94 | the code of the 30-second step an instant lies in, which is what is generated for it, is accepted at every instant at most 30000 * window ms away |
| Totp.DriftEnrolled | src/modules/auth/totp.util.ts:53-94 | the same when the server holds the base32 text and the authenticator the raw key |
| Totp.OutsideWindow | src/modules/auth/totp.util.ts:82-94 | the code of a step outside the window is accepted if and only if it collides with the code of a step inside |
| TokenTable.RevokeKeeps | src/modules/auth/refresh-token.repository.ts:23-28 | linking a row keeps the table well linked provided the successor is newer, of the same user and not linked to yet |
| TokenTable.LinksFormPaths | src/modules/auth/refresh-token.service.ts:43-80 | a well-linked table is a set of disjoint acyclic paths, every row on exactly one, each of one user and with at most its last row unrevoked |
| TokenTable.PathsDisjoint | src/modules/auth/refresh-token.service.ts:75-77 | two maximal chains that share a row are the same chain |
| TokenSteps.StepKeeps | src/modules/auth/refresh-token.service.ts:43-104 | one repository call of one request keeps the links in order and what every other request still has to do possible; revoked rows stay revoked |
| TokenSteps.RunKeeps | src/modules/auth/refresh-token.service.ts:43-104 | the same over every interleaving |
| TokenSteps.InterleavingsFormPaths | src/modules/auth/refresh-token.service.ts:43-80 | under every interleaving of repository calls, with any requests abandoned midway, the links form disjoint acyclic paths |
| TokenSteps.ReadAfterRevocation | src/modules/auth/refresh-token.service.ts:49-65 | once a row is revoked, no rotation reading it later is accepted, however requests interleave |
| TokenSteps.AcceptedBeforeRevocation | src/modules/auth/refresh-token.service.ts:43-80 | under every interleaving, all accepted rotations of one row, however many, read it before its first revocation |
| TokenSteps.RaceDoubles | src/modules/auth/refresh-token.service.ts:43-80 | two rotations that both read before either writes are both accepted and leave the user two active sessions for one |
| TokenSteps.CutStep | src/modules/auth/refresh-token.service.ts:43-104 | without active rows of a user no repository call of any request accepts a rotation for it, and without an accepted one none gives it an active row |
| TokenSteps.CutOffExact | src/modules/auth/refresh-token.service.ts:43-104 | revoking everything cuts a user off for good, under every later interleaving in which no session is started for it, if and only if no accepted rotation of the user is still to create its row |
| TokenSteps.PendingReachable | src/modules/auth/refresh-token.service.ts:43-75 | the exception in the cut-off condition does occur, from the empty table in two calls |
| TokenSteps.RotateIsRun | src/modules/auth/refresh-token.service.ts:43-80 | the atomic rotation equals the uninterrupted run of its repository calls |
| TokenSteps.LogoutIsRun | src/modules/auth/refresh-token.service.ts:83-99 | the atomic logout equals the uninterrupted run of its repository calls |
| TokenSteps.SingleCallsAreRuns | src/modules/auth/refresh-token.service.ts:30-104 | issuing and revoking everything are single repository calls |
| Sessions.ParseRaw | src/modules/auth/refresh-token.service.ts:30-37 | the string handed to the client parses back to the row id and secret |
| Sessions.ParseExact | src/modules/auth/refresh-token.service.ts:108-114 | a string is read as a row id and a secret exactly when it is an id in either case, a dot, and the secret up to a further dot, neither empty |
| Sessions.RotateExact | src/modules/auth/refresh-token.service.ts:43-80 | a rotation succeeds if and only if the token names a stored, unrevoked, unexpired row and shows a secret with the stored hash; every refusal and its reason in terms of the row |
| Sessions.RotateSwaps | src/modules/auth/refresh-token.service.ts:75-79 | a successful rotation swaps the presented unrevoked row for a new one of its user |
| Sessions.RotateCounts | src/modules/auth/refresh-token.service.ts:75-79 | success replaces one active row by one new row, links them, and conserves every user's number of active rows |
| Sessions.IssueCounts | src/modules/auth/refresh-token.service.ts:30-37 | issuing adds exactly one active row, to one user |
| Sessions.LogoutCounts | src/modules/auth/refresh-token.service.ts:83-99 | logout removes at most the named row from the active ones |
| Sessions.RevokeAllCounts | src/modules/auth/refresh-token.service.ts:102-104 | the user is left no active row, everyone else theirs |
| Sessions.ReuseResponse | src/modules/auth/refresh-token.service.ts:58-73 | presenting a revoked token, and only that refusal, ends every session of its user and touches nobody else; other refusals change nothing |
| Sessions.RevokedForever | src/modules/auth/refresh-token.service.ts:58-65 | a row once revoked is refused in every later table |
| RefreshTokens.RefreshTokenRepository.Create | src/modules/auth/refresh-token.repository.ts:10-16 | the table gains exactly one unrevoked, unlinked row |
| RefreshTokens.RefreshTokenRepository.FindById | src/modules/auth/refresh-token.repository.ts:18-20 | a row is found exactly when one has the id, and it is that row |
| RefreshTokens.RefreshTokenRepository.Revoke | src/modules/auth/refresh-token.repository.ts:23-28 | the named row is revoked and linked if a successor is given, all else unchanged |
| RefreshTokens.RefreshTokenRepository.RevokeAllForUser | src/modules/auth/refresh-token.repository.ts:31-36 | exactly the unrevoked rows of the user become revoked |
| RefreshTokens.RefreshTokenService.Issue | src/modules/auth/refresh-token.service.ts:30-37 | in-place issue equals its specification, with the token handed out |
| RefreshTokens.RefreshTokenService.Rotate | src/modules/auth/refresh-token.service.ts:43-80 | the sequence of checks and updates equals the rotation that RotateExact pins down, on every input and error by error |
| RefreshTokens.RefreshTokenService.Revoke | src/modules/auth/refresh-token.service.ts:83-99 | in-place logout equals its specification |
| RefreshTokens.RefreshTokenService.RevokeAll | src/modules/auth/refresh-token.service.ts:102-104 | in-place revocation of all of a user's rows equals its specification |
| SessionSafety.StepTokens | src/modules/auth/auth.service.ts:32-191 | every service call keeps the links in order, removes no row, hands none over and revives none |
| SessionSafety.TracePaths | src/modules/auth/refresh-token.service.ts:30-104 | in every state of every run the links form disjoint paths with at most the last row active |
| SessionSafety.RotatesOnce | src/modules/auth/refresh-token.service.ts:43-80 | over every run each token id rotates successfully at most once |
| SessionSafety.CutSeals | src/modules/auth/auth.service.ts:123-191 | password change, reset, sign-out everywhere, reuse, and renewal for a dead account leave the user no active row and everyone else's rows as they were |
| SessionSafety.CutOff | src/modules/auth/auth.service.ts:123-191 | after such a call no token the user held by then ever rotates again, the one just created by a refused renewal included |
| SessionSafety.RefreshCounts | src/modules/auth/auth.service.ts:157-174 | a renewal answered with tokens conserves the number; one that cuts its user off ends them all, the row it has just created included |
| SessionSafety.StepCounts | src/modules/auth/auth.service.ts:32-191 | the exact change of everyone's number of active rows by each call: plus one when a session starts, minus the named one at sign-out, minus all at a cut, none for a renewal answered with tokens or anything else |
| SessionSafety.SessionsConserved | src/modules/auth/auth.service.ts:32-191 | over every run a user's active rows are those there were plus the sessions started minus those ended, exactly |
| Accounts.CredentialsExact | src/modules/auth/auth.service.ts:199-251 | every outcome of a login attempt in terms of the account: unknown or inactive, locked, wrong password counted and from the threshold on locked for the lock length, right password clearing both |
| Accounts.AttemptEffect | src/modules/auth/auth.service.ts:199-251 | a password is checked exactly if the account found is active and not under a lock; a wrong one counts and locks from the threshold on, the right one clears, other accounts keep their state |
| LockoutSafety.StepLock | src/modules/auth/auth.service.ts:199-251 | what any call does to one account's counter and lock |
| LockoutSafety.TraceLocks | src/modules/auth/auth.service.ts:236-251 | in every reachable state a lock instant is present exactly when failures have reached the threshold |
| LockoutSafety.LockoutBound | src/modules/auth/auth.service.ts:199-251 | between two instants T ms apart with no successful login and no password set, at most max + floor(T / lock length) login attempts reach the password of an account |
| Decisions.AuthenticateExact | src/modules/auth/strategies/jwt.strategy.ts:32-43 | a token speaks for its subject exactly when it is no challenge and the account is there, not deleted, and active |
| Decisions.SignedExact | src/modules/auth/auth.service.ts:254-288 | exactly the access token or challenge of an answer comes into circulation with it |
| Decisions.RegistrationExact | src/modules/auth/auth.service.ts:32-54 | registration succeeds exactly when no row has the email; the row stored, the session given, and the two refusals |
| Decisions.CreationExact | src/modules/users/users.service.ts:25-47 | the same for creation by the administrator, with the active flag given |
| Decisions.UpdateExact | src/modules/users/users.service.ts:89-110 | editing succeeds exactly for a present account and an email no other row has; what it stores |
| Decisions.RemovalExact | src/modules/users/users.service.ts:112-123 | removing succeeds exactly for a present account and marks it deleted and inactive |
| Decisions.SignInExact | src/modules/auth/auth.service.ts:56-81 | how a login is answered and what it leaves of account and sessions, case by case on the account |
| Decisions.LoginUnknown | src/modules/auth/auth.service.ts:203-206 | a login for an email of no present account is refused alike and changes nothing |
| Decisions.SecondStepExact | src/modules/auth/auth.service.ts:87-117 | the second step gives a session exactly for an unexpired signed challenge of a usable, enrolled account with an accepted code |
| Decisions.RenewalExact | src/modules/auth/auth.service.ts:157-174 | a renewal is answered with tokens exactly when the row is stored, unrevoked, unexpired, its secret shown and its account usable; every refusal looks the same |
| Decisions.SignOutExact | src/modules/auth/auth.service.ts:177-180 | signing out revokes exactly the row named, if unrevoked, whatever secret is shown, and always succeeds |
| Decisions.SignOutAllExact | src/modules/auth/auth.service.ts:183-191 | signing out everywhere revokes exactly the unrevoked rows of the user |
| Decisions.PasswordChangeExact | src/modules/auth/auth.service.ts:123-150 | a password is changed if and only if the account is present and the current password is right; what it stores |
| Decisions.ResetRequestExact | src/modules/auth/password-reset.service.ts:40-58 | one answer in every case; a token is stored exactly for a usable account, with its hash and lifetime |
| Decisions.ResetExact | src/modules/auth/password-reset.service.ts:87-106 | a reset succeeds exactly for a stored, unused, unexpired token of an account there is |
| Decisions.SetupExact | src/modules/auth/two-factor.service.ts:34-53 | setup stores the base32 text of the drawn key and answers with it |
| Decisions.EnableExact | src/modules/auth/two-factor.service.ts:56-77 | enabling succeeds if and only if the account is present with a stored secret and the code is a current one of it; flag and new codes are all it changes |
| Decisions.DisableExact | src/modules/auth/two-factor.service.ts:80-99 | disabling succeeds if and only if the account is present and enrolled and the code is accepted; flag, secret and recovery codes go |
| Causes.HashCause | src/modules/auth/auth.service.ts:123-150 | a stored password hash changes only if the current password, or an unused, unexpired reset token of the account, is given |
| Causes.TraceHashCause | src/modules/auth/auth.service.ts:123-150 | the same between any two states of any run |
| Causes.FactorCause | src/modules/auth/two-factor.service.ts:80-99 | a second factor goes off only by a disabling call for its account with an accepted code |
| Causes.TraceFactorCause | src/modules/auth/two-factor.service.ts:80-99 | the same between any two states of any run |
| Causes.SecretNeeded | src/modules/auth/refresh-token.service.ts:30-80 | over every run whoever rotates names the row of a token an earlier answer handed to that user and shows a secret with the hash of the one handed out |
| RoundTrips.StepBacked | src/modules/auth/auth.service.ts:273-288 | whoever is answered with a session holds a token with an unrevoked, matching row of that user and the full lifetime |
| RoundTrips.TokenWorks | src/modules/auth/refresh-token.service.ts:30-80 | over every run a token handed out rotates later, for its user, if and only if its row was not revoked meanwhile and its lifetime is not over |
| RoundTrips.ResetWorks | src/modules/auth/password-reset.service.ts:40-106 | over every run a requested reset token sets that account's password if and only if its row was not used up meanwhile and its lifetime is not over |
| RoundTrips.LoginExact | src/modules/auth/auth.service.ts:199-233 | the right password is accepted if and only if the account is active and its lock, if any, is over |
| AccountSafety.TraceUnique | src/modules/users/users.repository.ts:16-46 | emails stay unique along every run |
| AccountSafety.StepAccount | src/modules/auth/auth.service.ts:32-251 | what any call does to one account: its password changes only when one is set for it, its email, active flag and deletion only when the administrator edits it |
| AccountSafety.TraceAccount | src/modules/auth/auth.service.ts:32-251 | the same along every run |
| RoundTrips.PasswordWorks | src/modules/auth/auth.service.ts:56-233 | over every run the password set last for an account, and no other, opens it at any later call until a new one is set or the account is edited: a login is answered as active flag, deletion, a running lock, second factor and that password say |
| RoundTrips.RegistrationWorks | src/modules/auth/auth.service.ts:32-81 | over every run whoever registered logs in with the chosen password at any later call before a change, refused if and only if a lock is running |
| RoundTrips.SetupThenEnable | src/modules/auth/two-factor.service.ts:34-77 | after setup, the code an authenticator with the raw key shows within 30 seconds completes enrolment |
| RoundTrips.EnrolledLogin | src/modules/auth/auth.service.ts:87-117 | an enrolled account finishes its login with such a code, spending no recovery code |
| RoundTrips.StepSecret | src/modules/auth/two-factor.service.ts:34-99 | only setting up and disabling touch the secret of an account or switch its second factor off |
| RoundTrips.EnrolmentWorks | src/modules/auth/two-factor.service.ts:34-77 | over every run, after a setup what an authenticator with the raw key shows within 30 seconds enables the second factor at any later call, until the next setup or disabling |
| RoundTrips.EnrolledWorks | src/modules/auth/auth.service.ts:87-117 | over every run an enrolled, live account finishes its login with any unexpired challenge, also one signed before a password change, and such a code, spending no recovery code, until the next setup or disabling |
| UserAccounts.UsersRepository.Create | src/modules/users/users.repository.ts:16-18 | inserts unless some row, even a deleted one, holds the email; emails stay unique |
| UserAccounts.UsersRepository.FindByEmail | src/modules/users/users.repository.ts:24-26 | the one undeleted row with the email |
| UserAccounts.UsersRepository.Update | src/modules/users/users.repository.ts:44-46 | writes the given fields of one row and no other; fails without effect if the row is missing or the email taken |
| UserAccounts.UsersRepository.SoftDelete | src/modules/users/users.repository.ts:48-53 | the row stays, marked deleted and inactive |
| UserAccounts.UsersService.Create | src/modules/users/users.service.ts:25-47 | in-place creation equals its specification: conflict for an undeleted row with the email, a server error for a deleted one |
| UserAccounts.UsersService.Update | src/modules/users/users.service.ts:89-110 | in-place update of email and active flag equals its specification, error by error |
| UserAccounts.UsersService.Remove | src/modules/users/users.service.ts:112-123 | in-place removal equals its specification |
| UserAccounts.UsersService.RegisterFailedLogin | src/modules/users/users.service.ts:141-146 | counts one failure in place and returns the new count |
| UserAccounts.UsersService.LockAccount | src/modules/users/users.service.ts:149-151 | sets the lock instant only |
| UserAccounts.UsersService.ClearLoginFailures | src/modules/users/users.service.ts:154-159 | clears counter and lock |
| UserAccounts.UsersService.SetPassword | src/modules/users/users.service.ts:162-169 | new hash, counter and lock cleared, nothing else |
| UserAccounts.UsersService.SetTwoFactorSecret | src/modules/users/users.service.ts:172-174 | stores the secret without touching the flag |
| UserAccounts.UsersService.SetTwoFactorEnabled | src/modules/users/users.service.ts:177-182 | sets the flag; disabling also drops the secret |
| SecondFactor.FirstMatch | src/modules/auth/two-factor.service.ts:123-130 | a row is found when it matches and all before it differ, a failure means argon2 throws on a row and all before it differ, no match means every row differs |
| SecondFactor.VerifyOutcome | src/modules/auth/two-factor.service.ts:105-131 | every outcome of verification at every instant: denied without a secret, TOTP first, then by the first unused code that does not differ; a time step too early or a throwing argon2 fails rather than denies |
| SecondFactor.VerifyEffect | src/modules/auth/two-factor.service.ts:105-131 | accepting through a recovery code makes exactly that unused code used; any other outcome changes no code |
| SecondFactor.VerifyAccepts | src/modules/auth/two-factor.service.ts:105-131 | accepted are exactly the current TOTP codes and the texts for which the first unused recovery code that does not differ matches, up to case and surrounding white space; a row on which argon2 throws before it prevents acceptance |
| SecondFactor.VerifyAcceptsAny | src/modules/auth/two-factor.service.ts:105-131 | where argon2 throws on no unused row their order does not matter: any matching one is accepted |
| SecondFactor.NormalizedCode | src/modules/auth/two-factor.service.ts:109-116 | case and surrounding white space of a recovery code do not matter |
| Text.SpaceExact | src/modules/auth/two-factor.service.ts:109-109 | the white space that trimming removes, by code point |
| Text.TrimParts | src/modules/auth/two-factor.service.ts:109-109 | every text is its trimmed self with white space around it |
| SecondFactor.ReplaceEffect | src/modules/auth/two-factor.repository.ts:14-21 | the user is left exactly the ten new codes, all unused, other users theirs |
| TwoFactor.TwoFactorRepository.ReplaceCodes | src/modules/auth/two-factor.repository.ts:14-21 | in-place replacement equals its specification |
| TwoFactor.TwoFactorRepository.FindUnusedForUser | src/modules/auth/two-factor.repository.ts:24-28 | the unused rows of the user with their hashes, in the database's order |
| TwoFactor.TwoFactorRepository.MarkUsed | src/modules/auth/two-factor.repository.ts:30-35 | one row becomes used |
| TwoFactor.TwoFactorRepository.DeleteAllForUser | src/modules/auth/two-factor.repository.ts:37-39 | exactly the user's rows go |
| TwoFactor.TwoFactorService.Setup | src/modules/auth/two-factor.service.ts:34-53 | stores the base32 text of the drawn bytes as the pending secret |
| TwoFactor.TwoFactorService.Enable | src/modules/auth/two-factor.service.ts:56-77 | in-place enrolment equals the one that EnableExact pins down, refusals included |
| TwoFactor.TwoFactorService.Disable | src/modules/auth/two-factor.service.ts:80-99 | in-place removal equals the one that DisableExact pins down; a refused attempt consumes no code |
| TwoFactor.TwoFactorService.VerifyCode | src/modules/auth/two-factor.service.ts:105-117 | TOTP first, then the recovery codes, equal to the specification |
| TwoFactor.TwoFactorService.ConsumeRecoveryCode | src/modules/auth/two-factor.service.ts:119-131 | the loop marks the first matching row and stops, or propagates an argon2 failure met before it |
| FactorSafety.KindsDisjoint | src/modules/auth/strategies/jwt.strategy.ts:32-43 | no token both authenticates a request and counts as a challenge |
| FactorSafety.ChallengeOrigin | src/modules/auth/auth.service.ts:254-266 | every challenge in circulation was signed by an earlier login of its account with the right password |
| FactorSafety.StepPaths | src/modules/auth/auth.service.ts:56-117 | while the second factor is enabled only a challenged login with an accepted code starts a session path |
| FactorSafety.SecondFactorNeeded | src/modules/auth/auth.service.ts:56-117 | over every run such a session goes back to a right password at most one challenge lifetime earlier |
| SessionOrigins.StepFinal | src/modules/auth/auth.service.ts:32-191 | no service call ever changes a revoked row again, its link included |
| SessionOrigins.StartEntitled | src/modules/auth/auth.service.ts:32-117 | a session is started only by registering, by the right password where no second factor is enabled, or by an accepted code for an unexpired challenge where one is |
| SessionOrigins.PathStarted | src/modules/auth/auth.service.ts:32-174 | every new path of refresh tokens, whosever it is, was started by the call; renewals only continue paths |
| SessionOrigins.PathOrigin | src/modules/auth/auth.service.ts:32-174 | over every run the first row of each path was created by a call entitled to start a session for its user |
| SessionOrigins.NewPasswordNeeded | src/modules/auth/auth.service.ts:56-150 | over every run, after a new password is set a session starts only with that password, or on a challenge signed before the change and then less than a challenge lifetime after that signing |
| FactorSafety.TraceFactor | src/modules/auth/two-factor.service.ts:34-99 | in every reachable state enabled means a stored secret and exactly ten recovery rows, disabled none |
| FactorSafety.StepConsumes | src/modules/auth/two-factor.service.ts:105-131 | outside enrolment a call consumes at most one recovery code, one whose hash the offered text matches, and keeps all rows and hashes |
| FactorSafety.UsedCode | src/modules/auth/two-factor.service.ts:80-131 | a recovery code is consumed only by a second login step or by disabling, was unused until then, and its hash matches the text offered |
| FactorSafety.CodesConserved | src/modules/auth/two-factor.service.ts:105-131 | within one enrolment the unused codes are exactly those not consumed yet, and none is consumed twice |
| FactorSafety.TenUses | src/modules/auth/two-factor.service.ts:56-131 | acceptances so far and unused codes always add up to ten and any further one needs one to be left, the one that disables included, so one enrolment yields at most ten |
| FactorSafety.EachCodeOnce | src/modules/auth/two-factor.service.ts:80-131 | within one enrolment, the call that disables included, no code works twice; if argon2 tells the codes apart, no text does, however cased or padded |
| Resets.RedeemEffect | src/modules/auth/password-reset.repository.ts:25-38 | redeeming uses up every token of the user and no one else's |
| ResetSafety.RedeemEffects | src/modules/auth/password-reset.service.ts:87-106 | a successful reset sets one password, clears the lock, ends the account's sessions, uses up its tokens, and changes nothing of anyone else |
| ResetSafety.RedeemedForever | src/modules/auth/password-reset.service.ts:87-106 | every token issued to the user by then is refused in every later call |
| ResetSafety.RedeemsOnce | src/modules/auth/password-reset.service.ts:87-91 | over every run each raw token succeeds at most once |
| PasswordReset.PasswordResetRepository.Create | src/modules/auth/password-reset.repository.ts:13-19 | one unused row is added; hashes stay distinct |
| PasswordReset.PasswordResetRepository.FindByHash | src/modules/auth/password-reset.repository.ts:21-23 | the one row with the hash |
| Resets.MarkUsedExact | src/modules/auth/password-reset.repository.ts:25-30 | marking uses exactly the named row, at that instant |
| PasswordReset.PasswordResetRepository.MarkUsed | src/modules/auth/password-reset.repository.ts:25-30 | one row becomes used |
| PasswordReset.PasswordResetRepository.InvalidateAllForUser | src/modules/auth/password-reset.repository.ts:33-38 | exactly the user's unused rows become used |
| PasswordReset.PasswordResetService.Request | src/modules/auth/password-reset.service.ts:40-58 | same answer whether or not the account exists; a row only for an active one |
| PasswordReset.PasswordResetService.Reset | src/modules/auth/password-reset.service.ts:87-106 | the sequence of four updates equals the atomic specification, refusals included |
| AuthServices.AuthService.Register | src/modules/auth/auth.service.ts:32-54 | in-place registration equals its specification; a deleted row still blocks its email |
| AuthServices.AuthService.Login | src/modules/auth/auth.service.ts:56-81 | in-place login equals its specification: refusal, challenge or session |
| AuthServices.AuthService.LoginSecondFactor | src/modules/auth/auth.service.ts:87-117 | the second step equals its specification on every payload |
| AuthServices.AuthService.ChangePassword | src/modules/auth/auth.service.ts:123-150 | equals the change that PasswordChangeExact pins down |
| AuthServices.AuthService.Refresh | src/modules/auth/auth.service.ts:157-174 | rotation, account check and revocation equal the specification |
| AuthServices.AuthService.Logout | src/modules/auth/auth.service.ts:177-180 | only the named row can change |
| AuthServices.AuthService.LogoutAll | src/modules/auth/auth.service.ts:183-191 | only the user's rows change, all revoked |
| AuthServices.AuthService.ValidateCredentials | src/modules/auth/auth.service.ts:199-233 | the branches and their updates equal the attempt that CredentialsExact pins down |
| AuthServices.AuthService.HandleFailedLogin | src/modules/auth/auth.service.ts:236-251 | counts, then locks from the threshold on |
| AuthServices.AuthService.BuildAuthResponse | src/modules/auth/auth.service.ts:273-288 | a new session row unless a refresh token is handed in |
| Rbac.Flatten | src/modules/rbac/rbac.service.ts:25-39 | the nested loops yield each permission string some row carries, once, and the role names in order |
| Rbac.FlattenFaithful | src/modules/rbac/rbac.service.ts:25-39 | whatever the row order, the strings say exactly which roles are held and which permissions they grant |
| Rbac.GuardRefines | src/common/guards/authorization.guard.ts:27-81 | for every route, public or not, and every principal or none, the guard on faithful strings decides by the relation on the tables: allowed, not authenticated, role missing, or permission missing, in that order |
| Rbac.RenderInjective | src/modules/rbac/rbac.service.ts:31-31 | without a colon in resources, renderings tell permissions apart |
| Rbac.ColonFreeUnambiguous | src/modules/rbac/rbac.service.ts:31-31 | a catalogue of colon-free resources is unambiguous about every colon-free permission |
| Rbac.ExactWhenUnambiguous | src/modules/rbac/rbac.service.ts:28-33 | the string test for a permission is right for every assignment of roles and grants if and only if no other permission of the catalogue renders alike |
| Rbac.ColonConfusion | src/common/guards/authorization.guard.ts:69-78 | with a colon in a resource a concrete user passes for a permission no held role grants |
| Rbac.GuardExact | src/common/guards/authorization.guard.ts:27-81 | on an unambiguous catalogue access is given iff some listed role is held, when any is listed, and held roles grant every required permission |
| Rbac.AssignThenRemove | src/modules/rbac/rbac.service.ts:45-65 | assigning and removing a role restores the tables, hence every decision, exactly when the pair was not there before |
| Rbac.AssignEffect | src/modules/rbac/rbac.repository.ts:32-38 | assigning takes nothing away and gives the role's own name and grants, to that user only |
| Rbac.SameDecision | src/modules/rbac/rbac.repository.ts:15-22 | two principals of one user decide alike whatever order their rows came in |
| RbacServices.RbacRepository.FindRolesWithPermissionsByUser | src/modules/rbac/rbac.repository.ts:15-22 | the held roles joined with their permissions, in some order |
| RbacServices.RbacRepository.FindRoleByName | src/modules/rbac/rbac.repository.ts:28-30 | the one role of that name |
| RbacServices.RbacRepository.AssignRole | src/modules/rbac/rbac.repository.ts:32-38 | the pair is present afterwards, nothing else changes |
| RbacServices.RbacRepository.RemoveRole | src/modules/rbac/rbac.repository.ts:40-42 | the pair is absent afterwards, nothing else changes |
| RbacServices.RbacService.GetUserAuthorization | src/modules/rbac/rbac.service.ts:25-39 | the strings loaded for a user are faithful to the tables |
| RbacServices.RbacService.AssignRoleToUser | src/modules/rbac/rbac.service.ts:45-54 | succeeds iff user and role exist, and then assigns exactly that role |
| RbacServices.RbacService.RemoveRoleFromUser | src/modules/rbac/rbac.service.ts:56-65 | succeeds iff user and role exist, and then removes exactly that role |
| RbacServices.JwtStrategy.Validate | src/modules/auth/strategies/jwt.strategy.ts:32-58 | a principal exactly for non-challenge tokens of live accounts, with the account's id and email and faithful roles and permissions |
| RbacServices.Admit | src/common/guards/authorization.guard.ts:27-81 | from verified token to decision: admitted iff no challenge token, live account, role condition met and every required permission granted |
| Sorting.NamedPadded | src/common/utils/sort.util.ts:25-36 | white space around a segment aside, a leading dash means descending by the rest, otherwise ascending by the segment |
| Sorting.DefaultSort | src/common/utils/sort.util.ts:19-23 | without an expression, or with an empty one, newest first |
| Sorting.ParseExact | src/common/utils/sort.util.ts:16-37 | accepted iff every trimmed segment, less its dash, is an allowed field; the criteria are the segments' own in order, the error names the first bad one |
| Sorting.ParseRender | src/common/utils/sort.util.ts:16-37 | parsing inverts writing down a non-empty list iff all fields are allowed, hold no comma, have clean edges and hide no dash; the empty expression means the fallback |
| Paging.PagesPartition | src/common/dto/page-meta.dto.ts:23-30 | pages 1 to totalPages concatenate to the whole list, only the last is short, none lies beyond, and hasNext and hasPrev say whether items remain after or come before |
| Paging.FollowingSeesAll | src/common/dto/page-meta.dto.ts:23-30 | following hasNext from page 1 stops after exactly totalPages requests, having seen every item once in order |
| Paging.PagesPrefix | src/common/dto/pagination-query.dto.ts:35-37 | the first k pages by skip and limit are the first k * limit items |

## Left out

- Lower-casing of characters outside ASCII, in recovery codes and ids: they stand for themselves. Upper-casing in base32 texts is exact as far as ASCII letters can come of it, and white space is that of ECMAScript.
- Foreign code: PostgreSQL, Prisma, SHA-256, HMAC, argon2 and the JWT library are parameters or abstract records; that a JWT verifies only if it was signed and has not expired is assumed, at millisecond rather than second granularity.
- Spellings of uuids: an id in a refresh token is read in either case; the further notations the database accepts (braces, no hyphens) and other spellings of ids in routes are not distinguished.
- Fresh draws: ids, secrets and reset tokens never repeat, secrets hold no dot, and a reset token's hash differs from the stored ones; this is assumed of every call.
- One instant per request: all reads of the clock within one call see the same time.
- Interleaving of whole services: only refresh-token requests are also modelled at the granularity of repository calls. At-most-once and counting properties are not claimed there, because the services read and then write without a transaction; RaceDoubles is the run in which they fail.
- LockoutBound: counts login attempts only; the password check inside changePassword is not limited by the lockout in the source either.
- VerifyExact: needs the window to stay at or above counter 0, that is any instant from 30 seconds after the epoch on for window 1; VerifyEdges says what happens below.
- VerifyAccepts: the same instants; VerifyOutcome covers all, and in the first 30 seconds a six-digit text ends in a server error.
- FindByEmail: of several undeleted rows with one email any may be returned; the unique column keeps there from being two.
- Floating point: time steps use integer division, with which the source's floating-point division agrees for real instants; page counts likewise.
- Integer columns: the failure counter is unbounded here and 32 bits wide in the database.
- Configuration changes during a run: thresholds, lifetimes and hash functions are constant.
- The names and timestamps of users; listing and searching them.
- The seed script, which rewrites the administrator outside the services.
- Roles and permissions as data to be edited: only the assignment of roles to users changes.
- Audit entries, events, mail, QR codes, `buildOtpAuthUrl`, logging, DTO mapping, controllers and their validation, files and notifications.
- The comment on `typ` in `jwt-payload.interface.ts` says the strategy rejects everything that is not `access`; the code rejects only `2fa`, and the model follows the code.
- Constant-time comparison is plain equality.
