# Verification of the authentication and authorization control plane

A Dafny model of an authentication and authorization library written in Go, and
proofs of what it promises over whole runs.

The library's use cases sit above small store interfaces. Here the stores are one
value of maps (`State`) that obeys the interfaces' documented contracts, each
operation is a function from the tables before to the tables after and the outcome
(`AccountRules`, `LoginRules`, `FactorRules`), and the use cases themselves are
classes that work on a mutable store and are proved to do exactly that
(`Stores`, `Management`, `SigningIn`, `SecondFactors`, `SecurityKeys`). `System`
makes a transition system of them: any operation, by any caller, at any instant
of a clock that never goes back, under whatever permission table is current. The
theorems are about every run of that system.

| part | modules |
|---|---|
| permission table, its options and its replacement under readers | `Roles`, `TableReplacement` |
| what a coalition can reach; last holder of a protected role; keys and chains of them; addresses | `PrivilegeClosure`, `LastHolder`, `KeyDeath`, `KeyChains`, `Addresses` |
| the directory as a replay of the log | `Ledger` |
| sessions, step-one tokens, ceremonies: that they end, and exactly until when they last | `Sessions`, `SessionDeath`, `SessionLife`, `PendingSteps`, `Provenance`, `PendingLife`, `CeremonyIsolation` |
| second factors and one-time codes | `Totp`, `ReplaySafety`, `FactorPreservation`, `RecoveryCode`, `RecoveryOnce` |
| password normaliser, policy, history, the newest password | `Glyphs`, `Dictionary`, `Disguise`, `PasswordPolicy`, `HistoryWindow`, `NewestPassword` |
| encoded hashes, and the protocol instantiated with them | `Base64`, `Numerals`, `PasswordHash`, `Deployment` |
| every operation's exact condition and effect | `AccountConditions`, `SignInConditions`, `FactorConditions` |
| frames and uniqueness shared by the proofs | `Frames`, `Minted` |

The theorems say what can never happen and what always does. So that they do not rest
on the definitions they are about, windows, lifetimes, glyphs, costs and permissions are
spelled out again where a theorem is stated, in nanoseconds, characters and table
entries, and not by the constants and tables the operations use.

Conventions. One public operation is one atomic step; a step reads the clock once
and sees one version of the table. The caller of a step is an identity passed in,
as in the source, and may have been resolved by a much earlier step. A bearer
secret stands for its own hash, the hash being injective. A value drawn at random
that was drawn before is a conflict, as the unique index would report it. Strings
are byte sequences, ASCII where case folding matters. HOTP, Argon2id, the check of
an authenticator's response and the deployment's lifetime rule are arbitrary
functions or verdicts handed in.

Where the code and its documentation part. The repository's README.md:135-136
says that each check reads the rules once; `MayHandle` loads them up to three
times (role.go:360-365), and the exact condition under which this cannot be seen
is proved. The comment on `ChangePassword` (admin.go:569-573) says the caller's own
session survives; the call at admin.go:622 revokes every session of the account,
and so does the model. The comment on `ClearFactorFor` (mfa.go:353-354) names
`manageableTarget`, which it does not call: it has no check against acting on
oneself. `OwnerClearsWithoutProof` is an input on which an owner so removes the last
factor with neither password nor step-up, and `OwnFactorsClearedIff` says exactly
when that succeeds. The current password is not in the history, so a change may set
it again; `CurrentPasswordRefusedIffSetTwice` says exactly when it is refused. The
model follows the code each time.

Assumptions stated as hypotheses. A run starts from tables whose rows are filed
under drawn values; where a theorem traces something back to its origin, it starts
with none of that thing outstanding. The privilege closure is for a run under one
table in which every step that manages accounts is taken under an identity the
coalition held a credential for, starting with accounts of one organization and any
keys of theirs; everybody else may take any other step. A chain of keys is judged
under one table, since permissions are compared by it. The history window assumes
that a hash written by this build verifies the password it was made from and no
other password used in the run, and that nothing verifies against the empty string;
`Deployment` derives these from the encoded hash and a key derivation that is
collision-free, on the passwords used, at this build's cost, salt length and key
length. The two theorems on what is refused exactly are for accounts that had
neither password nor history when the run began. Where an account is found by its
address, the address index starts out right, and stays so (`Addresses`). Factor
preservation takes the `otherFactor` argument of a key revocation as truthful, the
callers of revocations and step-ups as resolved by earlier steps of the run, and no
session as marked re-verified when it began; every other step is anybody's.

## Model

The theorems over runs and of whole transformations come first, the lemmas and methods
of their parts next. From `AccountConditions.ReRoledIff` on, each operation's exact
condition and effect, in terms of the tables alone. From
`Management.Admin.ManageableTarget` on, the use cases: methods whose contracts equate
what they do to the mutable store with `AccountRules`, `LoginRules` and `FactorRules`,
the functions all the rest is about.

| member | source | states |
|---|---|---|
| PrivilegeClosure.AlteredOnlyWithinReach | admin.go:497-560 | Privilege closure: in every run in which account management is in a coalition's hands, every account created, deleted, altered or reset lies in the coalition's organization and had, and gets, a role in the least closed set over the roles of the coalition's accounts and keys at the start. |
| PrivilegeClosure.GuardedAccountsUntouched | role.go:284-324 | A coalition starting without a guard permission leaves every account with a guarded role as it was, in every state of every run, and never resets it. |
| PrivilegeClosure.NoGuardedRoleReached | role.go:303-318 | The construction check makes the unguarded roles, with the starting ones, a closed set from which no guarded role is reached. |
| PrivilegeClosure.SecureThroughout | admin.go:314-329 | In every state, the accounts a coalition can act through have roles in the closed set, and its keys carry no more than one of them. |
| PrivilegeClosure.KeysStayWithin | role.go:443-455 | A key minted by a caller within the closed set stays within it. |
| LastHolder.AlwaysHeld | admin.go:443-527 | Once an organization has an enabled holder of a role that stays protected, every later state has one, whoever acts. |
| LastHolder.RemovalKeepsHeld | admin.go:375-401 | Disabling, deleting and re-roling keep each protected role held, counted separately. |
| Ledger.LogDeterminesTheBooks | admin.go:230-811 | In every state of every run, the accounts (all but their hashes), keys and policies are what replaying the log of operations, callers, tables and outcomes gives: what reports success has taken effect, what reports anything else has not, and nothing else changes them. |
| Ledger.KeysLiveByTheBooks | authenticator.go:655-678 | Whether a key is live is decided by that replay alone. |
| KeyChains.ChainsNeverEscalate | admin.go:702-740 | Down a chain of minting steps of any length, each taken under an identity resolved from the key minted before, the last key is the first minter's and carries, in every state, no permission that minter lacked and none left out of a known role asked for on the way. |
| KeyChains.KeyWithinItsParent | authenticator.go:655-678 | A key minted under an identity resolved from another key is the same account's and carries no permission that key lacks, in whatever states the two are looked at. |
| KeyDeath.RevokedKeyStaysDead | admin.go:745-763 | A key revoked once is refused in every later state. |
| KeyDeath.RoleForLife | authenticator.go:655-678 | A key keeps the owner and the role it was minted with for as long as it exists. |
| Addresses.OneAccountPerAddress | admin.go:334-357 | In every state of every run no two accounts share an address, letter case aside, and the address finds its account. |
| TableReplacement.VersionsAreWholeTables | role.go:94-135 | Over any sequence of replacements the anchors never change and every version a reader can load is one table that passed the construction checks. |
| TableReplacement.MayHandleIsOneVersionIffNoReplaceBetween | role.go:360-365 | MayHandle gives the answer of a single table version, for all histories and roles, if and only if no Replace falls between its three loads. |
| TableReplacement.RefusesWhatBothAllow | role.go:360-365 | Whenever a Replace may fall between the first two loads, a history in which the call refuses and every version current during it allows. |
| TableReplacement.AllowsWhatBothRefuse | role.go:360-365 | Whenever one may fall between the last two, a history in which the call allows and every version refuses. |
| Provenance.SecondStepHasPasswordCheck | authenticator.go:319-349 | Every session of a second step goes back to a password check of the same account, enabled at issue, at most 5 minutes earlier for a code and 7 for a key, through one claimed token. |
| Provenance.OneSessionPerPasswordCheck | authenticator.go:365-446 | The map from such sessions to password checks is injective. |
| Provenance.EveryGuessCostsAPasswordCheck | mfa.go:500-532 | Codes checked plus ceremonies begun <= tokens claimed <= tokens issued (and outstanding at the start); tokens issued <= password checks. |
| Provenance.ClaimedOnce | mfa.go:512-532 | In every run, a step-one token is claimed at most once. |
| Provenance.TokenOrigin | mfa.go:500-510 | In every run, a step-one token was issued by a password check of the account it names, and lives five minutes from there. |
| Provenance.PasswordAloneNeverSuffices | authenticator.go:255-268 | A sign-in with the password alone ends in a session only if the account has no second factor. |
| PendingLife.CodeOpensASessionIff | authenticator.go:319-349 | After a password check that asked for a second factor, in any later state: a code opens a session, for the account checked, if and only if the token is unclaimed and under five minutes old, the account is enabled and the code is good for it. |
| PendingLife.KeyOpensASessionIff | authenticator.go:427-446 | A key's answer opens a session for the account whose ceremony it was if and only if the challenge is unspent and under two minutes old, the account is enabled and it holds the key. |
| PendingLife.TokenGoodExactly | mfa.go:500-532 | A step-one token is good exactly until it is claimed or five minutes have passed. |
| PendingLife.ChallengeGoodExactly | webauthn.go:676-708 | A challenge is good exactly for its own purpose, until it is spent or two minutes have passed. |
| PendingLife.CurrentDigitsAreGood | mfa.go:461-481 | The six digits the verifier matches at this half-minute are good if and only if neither they nor later ones were accepted before. |
| PendingLife.TypedCodeIsGood | mfa.go:483-496 | A recovery code typed in either letter case, with dashes and spaces anywhere, is good if and only if it is unspent. |
| CeremonyIsolation.FinishMatchesItsBeginning | webauthn.go:33-51 | Every finished ceremony was begun under that challenge, for that purpose, within two minutes and, for registration and step-up, by that caller. |
| CeremonyIsolation.EachChallengeFinishesOnce | webauthn.go:108-119 | No challenge finishes twice across all ceremonies and accounts. |
| CeremonyIsolation.SignInReturnsTheAccountItWasBegunFor | webauthn.go:366-422 | A sign-in with a key is for the account whose step-one token began it. |
| SessionLife.LiveExactly | store.go:73-107 | A session reported as issued is live at an instant in a later state if and only if no step has ended it, the ceiling set at its issue has not come, and the idle window since its last use has not closed. |
| SessionLife.ReportedIsIssued | authenticator.go:276-305 | Every session reported as issued is new, unrevoked and of an enabled account. |
| SessionLife.StepLeaves | admin.go:375-401 | No step but a logout with its token, or a disabling, deletion or password change of its account, ends a session. |
| SessionDeath.LifetimesArePositive | authenticator.go:602-640 | The idle window is what the rule says first, or 12 hours, and the absolute what it says second, or 7 days, raised to the idle one; 0 < idle <= absolute. |
| SessionDeath.DeathIsFinal | authenticator.go:578-702 | A drawn token refused once is refused at all later times, whatever happens between, EnableUser included. |
| SessionDeath.LiveOnlyWithinBothClocks | store.go:93-107 | A session is live only before the ceiling set at its issue and before its last use plus the idle window then in force; the steps that set them exist in the run. |
| SessionDeath.EndedForGood | admin.go:393-400 | Disabling or deleting an account, changing or resetting its password, and logging out end the sessions they name at once and for all later times. |
| SessionDeath.IssuedSessionIsLive | authenticator.go:288-300 | An issued session has both windows before it in that order and is live to the end of the idle one. |
| SessionDeath.UsedSessionIsLive | authenticator.go:587-599 | After a use, a session is live at a later instant, untouched, if and only if that lies before the new idle window's end and before the ceiling. |
| SessionDeath.RunSettles | admin.go:393-400 | No session of a disabled account is ever unrevoked, so enabling revives none. |
| NewestPassword.NewestPasswordSignsIn | authenticator.go:205-269 | In every state of every run, of the passwords in use exactly the one an account was given last takes it past the password step, and only while it is enabled. |
| HistoryWindow.NoRepeatWithinTheWindow | admin.go:574-691 | Under constant depth d, no password given to an account repeats one given 2 to d + 1 changes earlier, rehashes at sign-in included, provided no hash written here verifies another password in use. |
| HistoryWindow.RefusedIffOneOfTheLast | admin.go:192-217 | For an account whose whole history lies in the run, a password the policy accepts is refused as a repeat if and only if it is one of the d before the current one. |
| HistoryWindow.CurrentPasswordRefusedIffSetTwice | admin.go:599-616 | The current password is refused as the next one if and only if the change before had set it too. |
| HistoryWindow.CorruptRowNeverBlocks | admin.go:201-208 | A row that does not parse changes no verdict. |
| HistoryWindow.CurrentPasswordMayBeSetAgain | admin.go:599-616 | The plainest input for which it is not refused: a current password with nothing in the history. |
| HistoryWindow.LoginAsIsGood | authenticator.go:242-253 | A rehash at sign-in keeps the account's hash one of its newest password. |
| Deployment.EveryPasswordMeetsTheFloor | admin.go:789-811 | Whatever policies are saved during a run, no account is given a password outside the floor. |
| Deployment.DeploymentHashes | password.go:59-96 | The encoded hash meets the assumptions the history window is proved under, for any passwords in use that do not collide under the derivation as the build uses it. |
| Deployment.NoRepeatInADeployment | admin.go:574-691 | The same of the encoded Argon2id hash, from the derivation being collision-free, on the passwords in use, at the build's own cost, salt length and key length. |
| Deployment.CollisionFreedomIsPossible | password.go:59-69 | The assumptions about the derivation can hold together, with two passwords in use. |
| Deployment.UpgradeAtSignInIsFinal | authenticator.go:246-253 | In a deployment, the hash left by a sign-in verifies the password typed and needs no upgrade. |
| Deployment.HashOfAnyCostSignsIn | authenticator.go:222-269 | Whatever cost an account was hashed at, its password and no other takes it past the password step; the stored hash then verifies that password at no less than this build's cost, and is the old one where that was enough. |
| FactorPreservation.LastFactorGoesOnlyDeliberately | webauthn.go:463-478 | An account loses its last factor only by Disable with the password, by another's permitted clearing, by its own clearing under a role that may act on itself, or by a revocation within 10 minutes of a step-up in the same session that met what its factors then demanded. |
| FactorPreservation.OwnFactorsClearedIff | mfa.go:361-393 | A caller clears its own factors, with neither password nor step-up, if and only if its role manages users and may act on itself; it then has none. |
| FactorPreservation.OwnerClearsWithoutProof | mfa.go:361-393 | Such an input: an administrator clears the one key whose revocation is refused without a step-up. |
| FactorPreservation.CodesAlwaysNeedTotp | mfa.go:334-342 | Unused recovery codes exist only while a confirmed enrollment does, in every run. |
| FactorPreservation.MethodIsWhatStepUpAsksFor | stepup.go:195-210 | The method a client is told is the one StepUp accepts. |
| FactorPreservation.StampProves | stepup.go:77-151 | A completed step-up proved what the account's factors demanded at that moment. |
| FactorPreservation.StampOrigin | stepup.go:50-54 | Every re-verification mark goes back to a completed step-up of that session. |
| ReplaySafety.AcceptedStepsIncrease | mfa.go:424-481 | While an enrollment lasts, the TOTP steps accepted for it strictly increase. |
| ReplaySafety.AcceptedCodesAreBounded | totp.go:118-159 | Codes accepted between t1 and t2 number at most step(t2) - step(t1) + 3. |
| ReplaySafety.ConfirmedIsKept | mfa.go:186-191 | A confirmed enrollment is never started afresh while it exists. |
| ReplaySafety.CounterClimbs | mfa.go:51-53 | The secret of a kept enrollment never changes and its counter never goes back. |
| ReplaySafety.SuccessIsAcceptance | mfa.go:240-250 | An operation that takes a TOTP code succeeds only by accepting a step. |
| RecoveryOnce.AcceptedOnce | mfa.go:483-496 | No recovery code is accepted twice over any run in which the account's set is not reissued between. |
| RecoveryOnce.SuccessIsAcceptance | mfa.go:435-438 | A sign-in completed with anything but six digits accepted a recovery code: the normalised input. |
| Disguise.DisguiseIsSeenThroughIff | dictionary.go:39-60 | For every plain word, every disguise of it by the glyphs people write for letters (a 4 @, b 8, e 3, g 9, o 0, s 5 $, t 7 +, i and l 1 ! |) and any letter case, and every run of digits and signs appended: the word is among the forms if and only if at most six shared glyphs are used (or all hide one letter) and the run is empty, follows a letter or holds no glyph. |
| Disguise.DisguisedListedWordIsRefused | dictionary.go:187-195 | Such a disguise of a listed word is refused. |
| Disguise.GlyphBeforeFillerSlipsThrough | dictionary.go:126-153 | The condition cannot be dropped: a glyph before an appended digit slips through. |
| Disguise.TablesAgree | dictionary.go:39-60 | The normaliser's tables and filler classes are the glyphs and decorations the theorem is told with. |
| Totp.TotpStepMonotone | totp.go:96-98 | The step of an instant never goes back. |
| Totp.Candidates | totp.go:124-137 | Exactly the 2k+1 steps within k of the current one, each once, nearest first. |
| Totp.ValidateTOTPCode | totp.go:118-159 | Returns what the scan over the candidates returns. |
| Totp.ValidateRefinesItsMeaning | totp.go:118-159 | For any skew: the result is the one its meaning names; the non-negative step closest to now at which the verifier answers, ties forward, accepted exactly when it matches and exceeds the last used step. |
| Totp.AcceptedIsFreshAndNear | totp.go:113-114 | An accepted step exceeds the last used one and lies within the skew. |
| Totp.AcceptedExactly | totp.go:96-159 | With half-minute steps and a skew of one: a code typed in half-minute s is accepted for t if and only if the verifier matches it at t, t is s, or s + 1 when it says nothing at s, or s - 1 when it says nothing at both, and t was not used. |
| Totp.NearbyCodesAreAccepted | totp.go:118-159 | The code of this half-minute and of either neighbour is accepted unless used; a code of no half-minute within one is not. |
| Roles.PermissionTable.New | role.go:152-189 | A table is built exactly when it has roles, a manage-users permission, no empty name, and an admin role that carries that permission; the table built holds what was listed. |
| Roles.PermissionTable.WithProtectedRoles | role.go:222-236 | Accepts exactly the non-empty lists of known roles; the receiver is left as it was and the copy differs in nothing else. |
| Roles.PermissionTable.WithRoleGuards | role.go:284-324 | Accepts exactly the guard maps in which every role carrying a guard permission is itself guarded and manages users, and every guard has a holder; the receiver is left as it was. |
| Roles.PermissionTable.CheckHolders | role.go:303-318 | The inner search: refuses exactly when some role carries the permission without being guarded and able to manage users, and reports no holder exactly when there is none. |
| Roles.PermissionTable.WithPrivilegedRoles | role.go:252-264 | The one-permission form accepts what the general form accepts for that map. |
| Roles.PermissionTable.Replace | role.go:125-135 | Swaps the whole rule set in or changes nothing; succeeds exactly when both anchors agree. |
| Roles.AtMostIsTheMeet | role.go:443-455 | AtMost never exceeds either role and equals the weaker of two comparable ones. |
| Roles.KeyChainNeverEscalates | admin.go:702-726 | The clamp folded over a list of requests of any length gives no permission the first role lacked, and none left out of a known role requested on the way. |
| Sessions.AnyStep | store.go:90-107 | What any step may do to any session: fresh ones only for enabled accounts, revocation never undone, idle moved only by use, mark set only by a step-up. |
| Minted.RunGrows | store.go:90-91 | Ids and tokens are unique over whole runs. |
| PendingSteps.AnyTokenStep | mfa.go:70-75 | What any step does to all step-one tokens at once. |
| PendingSteps.AnyChallengeStep | webauthn.go:108-119 | What any step does to all challenges at once. |
| Glyphs.ExpandAmbiguous | dictionary.go:70-107 | Exactly the readings of the ambiguous glyphs, pairwise distinct: all 2^k for k <= 6, the two uniform ones beyond. |
| Glyphs.ReexpansionIsIdentity | dictionary.go:56-63 | No reading holds an ambiguous glyph, so expanding it again gives it back alone. |
| Dictionary.StripTrailingFiller | dictionary.go:161-175 | Drops exactly the trailing run of digits and punctuation. |
| Dictionary.Normalizations | dictionary.go:126-153 | Exactly the forms: optional strip, one reading per glyph, the substitutions, optional strip; at most 258, distinct and non-empty. |
| Dictionary.InCommonPasswordList | dictionary.go:187-195 | True exactly when some form is a listed word. |
| Dictionary.PersonalFragments | dictionary.go:224-250 | Exactly the alphanumeric words of a detail of at least four characters that are not generic. |
| Dictionary.ContainsPersonalDetail | dictionary.go:207-219 | True exactly when some form holds a fragment of some detail. |
| Dictionary.FragmentAlwaysFound | dictionary.go:207-250 | A fragment in the password, in any letter case, is always found. |
| PasswordPolicy.Check | policy.go:172-235 | Reports exactly the broken rules, each once, in order; beyond 256 characters only the length rules. |
| PasswordPolicy.Validate | policy.go:148-161 | Accepts exactly the savable bounds. |
| PasswordPolicy.SavablePoliciesKeepTheFloor | policy.go:104-131 | Whatever a savable policy accepts has 12 to 256 characters and none of the account's details. |
| PasswordPolicy.OwnDetailsNeverAccepted | policy.go:172-235 | No policy accepts a password of at most 256 characters holding a fragment of a detail in any letter case. |
| PasswordHash.DecodeInvertsEncode | password.go:105-139 | For all nonzero costs, non-empty salts and digests, the parser returns exactly what was printed. |
| PasswordHash.FreshHashVerifies | password.go:59-96 | A fresh hash verifies its password, is not up for a rehash, and accepts another only on a collision at this build's cost. |
| PasswordHash.UpgradeIsFinal | password.go:141-157 | The upgrade at sign-in leaves a hash of the same password that is never upgraded again. |
| Base64.DecodeEncode | password.go:67-68 | Unpadded base64 of any bytes decodes to them (sections 3.2 and 4 of RFC 4648). |
| Numerals.ScanPrinted | password.go:116-121 | A printed decimal is read back and leaves what follows it. |
| RecoveryCode.NewRecoveryCode | recovery.go:79-105 | Rejection sampling over whole buffers: the first sixteen kept bytes, printed in groups; one buffer suffices when the alphabet's size divides 256. |
| RecoveryCode.NewRecoveryCodes | recovery.go:57-69 | Ten codes; each, typed back, normalises to the very characters drawn for it, and it is their hash that is stored. |
| RecoveryCode.GroupedShape | recovery.go:88-104 | Sixteen characters with dashes exactly before positions 4, 8 and 12. |
| RecoveryCode.NormalizeUndoesGrouped | recovery.go:114-123 | Normalising a printed code gives back the drawn characters. |
| RecoveryCode.NormalizeRecoveryCode | recovery.go:114-123 | Upper case, separators dropped. |
| RecoveryCode.RouteToTotp | mfa.go:442-459 | Six digits and nothing else, spaces and dashes aside. |
| RecoveryCode.CodesAreNeverRoutedToTotp | mfa.go:408-439 | No text normalising to a sixteen-character code goes to the authenticator. |
| RecoveryCode.EverySymbolIsEquallyLikely | recovery.go:71-78 | For every alphabet of n distinct symbols, up to 256, each is drawn by exactly 256 / n of the kept bytes. |
| PasswordHash.VerifiedAtItsOwnCost | password.go:80-96 | A stored hash is checked at the cost, salt and length it says itself; a digest over 1024 bytes is corrupt; an upgrade is due exactly below 19 MiB or two passes. |
| PasswordHash.FreshHashReads | password.go:59-69 | A fresh hash reads $argon2id$v=19$m=19456,t=2,p=1$, the salt, and the 32-byte key at that cost. |
| PasswordHash.OnlyHashesDecode | password.go:105-139 | What decodes has six fields, the algorithm, version 19, three costs in range, a salt and a digest. |
| Base64.SymbolsAreStandard | password.go:67-68 | The alphabet is table 1 of RFC 4648. |
| Base64.SextetsKeepTheBits | password.go:67-68 | The bytes and the sextets of a group are the same number, padded on the right (section 4 of RFC 4648). |
| PasswordPolicy.AcceptedExactly | policy.go:172-235 | On ASCII text: accepted if and only if the length is in range up to 256, each required class is present, and neither a listed word nor a detail is in it. |
| Dictionary.DelimitedRunIsAFragment | dictionary.go:224-250 | A run of small letters and digits with neither beside it is a fragment if and only if it has four or more of them and is not generic. |
| RecoveryCode.AlphabetIs | recovery.go:39-45 | Digits and capitals but for I, L, O and U. |
| RecoveryCode.AnySpellingNormalizes | recovery.go:107-123 | Any spelling of a code, in either case and with dashes and spaces anywhere, normalises to it. |
| AccountConditions.ReRoledIff | admin.go:497-527 | A re-role succeeds if and only if the role exists, the caller manages users, the account is another's of the same organization with a role the caller may touch, and it already has the role or the caller may touch the new one and the old one is unprotected, the account disabled or another enabled holder there. |
| AccountConditions.DisabledIff | admin.go:375-401 | Exactly when an account can be disabled: the gate, and that it can be spared from its role. |
| AccountConditions.EnabledIff | admin.go:426-438 | Exactly when it can be enabled: the gate alone. |
| AccountConditions.DeletedIff | admin.go:471-489 | Exactly when it can be deleted; its address, keys and sessions go and nobody else's do. |
| AccountConditions.StandingTakesEffect | admin.go:523-523 | A permitted re-role, disabling or enabling is in the row afterwards, and nothing else of the row changes. |
| AccountConditions.GateRefusals | admin.go:538-560 | Each refusal of an operation on another account exactly when its reason applies and no earlier one does. |
| AccountConditions.RefusedChangesNothing | admin.go:230-811 | A refused account operation leaves every table as it was. |
| AccountConditions.CreatedIff | admin.go:244-359 | An account is created if and only if its creator may, the policy accepts the password, nobody has the address in any letter case and the id is new; the row is the one asked for. |
| AccountConditions.InvitedIff | admin.go:269-275 | The same without a password. |
| AccountConditions.ChangedIff | admin.go:574-633 | A password is changed if and only if the caller gives the current one and the next is acceptable and not recent; hash, history and sessions afterwards. |
| AccountConditions.ResetIff | admin.go:655-691 | The same for a reset behind the gate. |
| AccountConditions.InitialSetIff | admin.go:287-310 | A first password is set if and only if the account is enabled, has none, and the policy accepts it. |
| AccountConditions.DefaultPolicy | policy.go:133-145 | What holds until an organization saves a policy of its own. |
| AccountConditions.MintedIff | admin.go:702-726 | Any caller with an account mints a key. |
| AccountConditions.RevokedIff | admin.go:745-763 | A key is revoked exactly by its owner. |
| AccountConditions.PolicySavedIff | admin.go:789-811 | A policy is saved if and only if the caller manages users and its bounds are in range; it then holds in the caller's organization and in no other. |
| SignInConditions.SignInIff | authenticator.go:205-269 | A sign-in ends in a session, or in a token, if and only if the password is the account's, the account enabled, and it has no factor, or has one; the other ends likewise. |
| SignInConditions.SignInLeaves | authenticator.go:242-305 | An outdated hash is replaced by one of the password typed; the session's two windows, or the token's five minutes. |
| SignInConditions.UnknownAddressRefused | authenticator.go:205-220 | An address nobody has is refused like a wrong password, and changes nothing. |
| SignInConditions.TypedAddressFindsTheAccount | authenticator.go:206-206 | An address typed in either letter case with blanks around it is the account's. |
| SignInConditions.CodeSignsInIff | authenticator.go:319-349 | A code completes a sign-in if and only if the token is good, its account enabled and the code good; a bad code uses up neither a recovery code nor a step. |
| SignInConditions.CodeSignInLeaves | authenticator.go:319-349 | The new session, and the code or its step used. |
| SignInConditions.KeySignInBegunIff | authenticator.go:365-374 | A ceremony begins if and only if the token is good and its account exists and holds a key. |
| SignInConditions.KeySignInFinishedIff | authenticator.go:427-446 | It finishes if and only if the challenge is good, its account enabled and the key that answered is the account's. |
| SignInConditions.PasswordlessBegunIff | authenticator.go:381-386 | Anybody may begin a passwordless sign-in, for nobody in particular. |
| SignInConditions.PasswordlessFinishedIff | authenticator.go:400-419 | It finishes if and only if the challenge is good, the account of the handle enabled and the key that answered is that account's. |
| SignInConditions.SessionResolvesIff | authenticator.go:578-600 | A session resolves if and only if it is good, to its account with its present role and mark, and its idle window starts again up to its ceiling. |
| SignInConditions.KeyResolvesIff | authenticator.go:659-678 | A key resolves if and only if it is unrevoked and its owner enabled, to the owner with the key's role. |
| SignInConditions.LogoutLeaves | authenticator.go:685-702 | A logout revokes its own session, if it is good, and nothing else. |
| SignInConditions.StepUpIff | stepup.go:77-109 | A step-up succeeds if and only if the caller has a session and proves what its factors demand; it marks that session alone and uses the code. |
| SignInConditions.KeyStepUpBegunIff | stepup.go:117-125 | A step-up with a key begins if and only if the caller has a session and a key. |
| SignInConditions.KeyStepUpFinishedIff | stepup.go:131-151 | It succeeds if and only if the challenge is good and the caller's, and the key that answered is the caller's. |
| SignInConditions.MethodAnnounced | stepup.go:195-210 | The method announced, by what the account holds. |
| FactorConditions.EnrollmentBegunIff | mfa.go:181-210 | An enrollment begins if and only if none is confirmed, unconfirmed and with no step used. |
| FactorConditions.EnrollmentConfirmedIff | mfa.go:222-262 | It is confirmed if and only if a code of its own secret is accepted; that step counts as used and the codes drawn are the account's only ones. |
| FactorConditions.CodesReissuedIff | mfa.go:265-276 | Codes are reissued if and only if the authenticator is confirmed, and replace all earlier ones. |
| FactorConditions.TotpDisabledIff | mfa.go:304-344 | The authenticator goes if and only if its owner gives the password; its codes go with it and keys stay. |
| FactorConditions.FactorsClearedIff | mfa.go:361-393 | Factors are cleared if and only if the caller manages users, in that organization, and may touch the account's role; all of that account's go and nobody else's. |
| FactorConditions.RegistrationBegunIff | webauthn.go:267-289 | A registration begins for any caller with an account. |
| FactorConditions.KeyRegisteredIff | webauthn.go:297-341 | A key is registered if and only if the challenge is good and the caller's and the response accepted; it is added to the caller's. |
| FactorConditions.KeyRevokedIff | webauthn.go:439-488 | A key is revoked if and only if the caller holds it and holds another factor or was re-verified under ten minutes ago; only it goes. |
| Management.Admin.ManageableTarget | admin.go:538-560 | The shared gate: manages users, not oneself, same organization, not a role held back; each refusal in the source's order. |
| Management.Admin.IsLastEnabledHolder | admin.go:443-454 | True exactly when no other enabled account of the organization has the target's role. |
| Management.Admin.CheckReuse | admin.go:192-217 | True exactly when some row that parses verifies the password. |
| Management.Admin.CheckNewUser | admin.go:314-329 | Authorization, role, guard and address checks of a new account, and the trimmed address. |
| Management.Admin.InsertUser | admin.go:333-359 | A taken address or a conflicting id is reported as such and writes nothing; otherwise one row and its index entry. |
| Management.Admin.CreateUser | admin.go:244-260 | The whole new state and outcome of creating an account with a password. |
| Management.Admin.CreateInvitedUser | admin.go:269-275 | The same without a password. |
| Management.Admin.SetInitialPassword | admin.go:287-310 | Sets a first password on an enabled account that has none, and files the change. |
| Management.Admin.DisableUser | admin.go:375-401 | Disables and revokes every session, unless refused; the last-holder test only for protected roles. |
| Management.Admin.EnableUser | admin.go:426-438 | Enables, and restores no session. |
| Management.Admin.DeleteUser | admin.go:471-489 | Removes the account, its address, sessions and keys, unless it is the last enabled holder. |
| Management.Admin.SetRole | admin.go:497-527 | Re-roles after checking the target, the grant and the last holder. |
| Management.Admin.ReplacePassword | admin.go:599-632 | Policy, reuse, the new hash, the filed row and the revoked sessions, in that order. |
| Management.Admin.ChangePassword | admin.go:574-633 | The above after the current password; every session of the account is revoked, the caller's too. |
| Management.Admin.ResetPassword | admin.go:655-691 | The above on another account the caller may manage. |
| Management.Admin.MintAPIKey | admin.go:702-726 | A key for the caller, its role clamped to the caller's. |
| Management.Admin.RevokeAPIKey | admin.go:745-763 | Revokes the caller's own key; anybody else's reads as not found. |
| Management.Admin.SetPasswordPolicy | admin.go:789-811 | Stores a savable policy for the caller's own organization. |
| Stores.Store.ListUsers | admin.go:60-60 | Every account of the organization and no other. |
| Stores.Store.ListCredentials | webauthn.go:97-97 | Every key of the account, each once. |
| Stores.Store.TouchSession | store.go:97-99 | Moves the idle window, clamped to the ceiling, and nothing else. |
| Stores.Store.SetTOTPLastUsedStep | mfa.go:51-53 | Never moves the counter backwards. |
| Stores.Store.SpendRecoveryCode | mfa.go:61-64 | Claims an unused code exactly when there is one. |
| Stores.Store.ClaimMFAToken | mfa.go:73-74 | Spends a live token and says whose it is; a used, expired or unknown one changes nothing. |
| Stores.Store.ClaimChallenge | webauthn_test.go:113-141 | Spends a challenge only while open, for its purpose and, where one is named, for its user. |
| SigningIn.Authenticator.Lifetimes | authenticator.go:624-640 | The windows of a rule with its fallbacks; always 0 < idle <= absolute. |
| SigningIn.Authenticator.IssueSession | authenticator.go:276-305 | One new session with both clocks set, under a token never drawn before. |
| SigningIn.Authenticator.IssueIfEnabled | authenticator.go:436-445 | The re-read before a session is issued: gone or disabled accounts get none. |
| SigningIn.Authenticator.Login | authenticator.go:205-220 | The account by its address, case and spaces aside, or the one refusal. |
| SigningIn.Authenticator.LoginAs | authenticator.go:222-269 | Password check, transparent upgrade, then a step-one token if there is a factor and a session if there is none. |
| SigningIn.Authenticator.CompleteMFA | authenticator.go:319-349 | Token spent first, account re-read, code checked, session issued; what was spent stays spent on a refusal. |
| SigningIn.Authenticator.BeginPasskeyLogin | authenticator.go:365-374 | The token is spent whether or not the ceremony begins. |
| SigningIn.Authenticator.CompletePasskeyLogin | authenticator.go:427-446 | A session for the account the challenge names. |
| SigningIn.Authenticator.BeginPasswordlessLogin | authenticator.go:381-386 | A challenge that names nobody. |
| SigningIn.Authenticator.CompletePasswordlessLogin | authenticator.go:400-419 | A session for the account whose key signed. |
| SigningIn.Authenticator.AuthenticateSession | authenticator.go:578-600 | Resolves a live session and moves its idle window; refuses any other. |
| SigningIn.Authenticator.AuthenticateAPIKey | authenticator.go:659-678 | Resolves a live key to its own role. |
| SigningIn.Authenticator.Logout | authenticator.go:685-702 | Revokes a live session and is never an error. |
| SigningIn.Authenticator.StepUp | stepup.go:77-109 | A code if the account has an authenticator, nothing if only a key, the password otherwise; stamps the caller's session alone. |
| SigningIn.Authenticator.BeginStepUpWithPasskey | stepup.go:117-125 | A challenge bound to the caller's account. |
| SigningIn.Authenticator.CompleteStepUpWithPasskey | stepup.go:131-151 | Stamps the session on an assertion by the caller's own key. |
| SigningIn.Authenticator.VerifyPasswordFor | stepup.go:155-171 | The password path of a step-up and its refusals. |
| SecurityKeys.WebAuthnService.StoreCeremony | webauthn.go:676-692 | One new challenge with its lifetime. |
| SecurityKeys.WebAuthnService.HasCredentials | webauthn.go:496-502 | True exactly when the account has a key. |
| SecurityKeys.WebAuthnService.FindAsserted | webauthn.go:400-421 | Finds the verified credential among the account's own keys exactly when it is there. |
| SecurityKeys.WebAuthnService.FinishLogin | webauthn.go:372-422 | The account comes from the challenge, which is spent even when the response is rejected. |
| SecurityKeys.WebAuthnService.FinishPasswordlessLogin | webauthn.go:533-581 | The account comes from the authenticator's handle and must hold the key. |
| SecurityKeys.WebAuthnService.FinishStepUp | webauthn.go:613-655 | Claims only a step-up challenge of this account. |
| SecurityKeys.WebAuthnService.BeginLogin | webauthn.go:350-364 | Begins only for an existing account with a key. |
| SecurityKeys.WebAuthnService.BeginStepUp | webauthn.go:591-605 | The same, bound to the account. |
| SecurityKeys.WebAuthnService.BeginRegistration | webauthn.go:267-289 | A registration challenge for the caller. |
| SecurityKeys.WebAuthnService.FinishRegistration | webauthn.go:297-341 | Stores the new key for the caller who began. |
| SecurityKeys.WebAuthnService.RevokeCredential | webauthn.go:439-488 | Revokes a held key; the last one without another factor only after a recent step-up. |
| SecurityKeys.WebAuthnService.RevokeAllFor | webauthn.go:668-673 | Removes every key of the account and no other. |
| SecondFactors.MFAService.RequiresFactor | mfa.go:567-579 | True exactly when a key or a confirmed authenticator exists. |
| SecondFactors.MFAService.IssueMFAToken | mfa.go:500-510 | One new token with a five-minute life. |
| SecondFactors.MFAService.ClaimMFAToken | mfa.go:520-532 | Spends a live token; every other one is refused alike. |
| SecondFactors.MFAService.VerifyFactor | mfa.go:424-439 | The shape of the code alone decides which credential is looked at. |
| SecondFactors.MFAService.VerifyTOTP | mfa.go:461-481 | Accepts by ValidateTOTPCode and records the step. |
| SecondFactors.MFAService.VerifyRecoveryCode | mfa.go:483-496 | Spends the normalised code if it is unused. |
| SecondFactors.MFAService.BeginEnrollment | mfa.go:181-210 | Stores a pending secret; refuses to replace a confirmed one. |
| SecondFactors.MFAService.ConfirmEnrollment | mfa.go:222-262 | Confirms by a code, counts its step as used and replaces the recovery codes. |
| SecondFactors.MFAService.RegenerateRecoveryCodes | mfa.go:265-276 | Replaces the set, for a confirmed enrollment only. |
| SecondFactors.MFAService.Disable | mfa.go:304-344 | Removes the authenticator and its codes after the password. |
| SecondFactors.MFAService.ClearFactorFor | mfa.go:361-393 | Removes every factor of the account, when the caller manages users, in the organization, and is senior enough. |

## Left out

- Google sign-in and OIDC verification: network exchanges with a third party.
- WebAuthn attestation, signatures, JSON, sign counters and clone warnings: the library's verdict on a response is an input; the recorded warnings decide nothing.
- Failures of store calls other than not found and conflict, and services left unattached (no policy store, no factor service): every call here succeeds or answers with one of the two.
- Races inside one operation, such as another writer between the last-holder scan and the update: an operation is atomic.
- The rotation hold (`PasswordExpired`, `ExpiresAt`, `ClearPasswordExpired`): it needs the calendar and gates nothing in these use cases.
- Sealing of TOTP secrets, token shapes and prefixes: a sealed secret stands for the secret and a malformed token is one that has no row.
- Timing, the dummy hash and the quality of randomness: not properties of values.
- Separate ids of sessions and keys beside their tokens, display names, avatars, `otpauth` links, and plain list and read operations: they would add easy members only.
- The contents of the embedded word list and of the list of generic words, and case folding and character classes outside ASCII: both lists are arbitrary sets of words.
- The name handed to a lifetime rule: the rule sees the id, organization, address and role of the account.
- Cascades of a deletion beyond sessions and API keys: the schema is not part of this model; ids are never reused, so leftover factor rows belong to nobody.
- PrivilegeClosure.AlteredOnlyWithinReach: `ChangePassword` on one's own account and `SetInitialPassword`, which takes no actor, are outside it; they alter nothing but a password.
- SecondFactors.MFAService.ClearFactorFor: takes the target row and the id separately as the source does; as a step of a run the row is the one read for that id.
- HistoryWindow.NoRepeatWithinTheWindow: says nothing of two consecutive passwords, because the code does not; `CurrentPasswordRefusedIffSetTwice` gives the exact condition. It is for a constant depth: rows beyond a lowered depth are gone when it is raised again.
