/** Exactly when each sign-in, session and step-up operation succeeds, and what it
    leaves behind, in terms of the tables alone (authenticator.go:205-446, 578-702;
    stepup.go:43-210; mfa.go:424-532; webauthn.go:350-422, 533-655). */
module SignInConditions {
  import opened Prelude
  import opened State
  import opened System
  import opened Text
  import opened SessionDeath
  import Totp
  import RecoveryCode
  import Addresses
  import Logins = LoginRules
  import Frames

  // ---- What the tables show ----------------------------------------------------------------

  predicate HoldsKey(db: Db, id: string) {
    exists row :: row in db.factors.credentials && db.factors.credentials[row].user == id
  }

  predicate HoldsTotp(db: Db, id: string) {
    id in db.factors.enrollments && db.factors.enrollments[id].confirmed
  }

  /** Somebody may sign in to the account. */
  predicate Open(db: Db, id: string) {
    id in db.accounts.users && !db.accounts.users[id].disabled
  }

  predicate PasswordIs(env: Env, db: Db, id: string, password: string) {
    && id in db.accounts.users && db.accounts.users[id].hash != ""
    && env.verify(db.accounts.users[id].hash, password) == Some(true)
  }

  predicate TokenGood(db: Db, now: Time, t: string) {
    && t != "" && t in db.pending.mfaTokens
    && !db.pending.mfaTokens[t].used && now < db.pending.mfaTokens[t].expiresAt
  }

  predicate ChallengeGood(db: Db, now: Time, c: string, purpose: Purpose) {
    && c in db.pending.challenges && db.pending.challenges[c].purpose == purpose
    && !db.pending.challenges[c].used && now < db.pending.challenges[c].expiresAt
  }

  /** The key that answered is registered to the account. */
  predicate KeyAnswers(db: Db, id: string, assertion: Option<string>) {
    && assertion.Some?
    && exists row :: row in db.factors.credentials && db.factors.credentials[row].user == id
                  && db.factors.credentials[row].credentialId == assertion.value
  }

  /** The six digits are accepted for the account, for this step. */
  predicate DigitsGood(env: Env, db: Db, now: Time, id: string, code: string, step: int) {
    && HoldsTotp(db, id) && RecoveryCode.LooksLikeTotp(code)
    && var e := db.factors.enrollments[id];
       Totp.Validate(env.hotp, e.secret, code, now, e.lastUsedStep, 1) == Totp.Accepted(step)
  }

  /** The text is an unspent recovery code of an account that has an authenticator. */
  predicate RecoveryGood(db: Db, id: string, code: string) {
    && HoldsTotp(db, id) && !RecoveryCode.LooksLikeTotp(code)
    && RecoveryCode.Normalize(code) != ""
    && id in db.factors.recovery && RecoveryCode.Normalize(code) in db.factors.recovery[id]
    && !db.factors.recovery[id][RecoveryCode.Normalize(code)]
  }

  ghost predicate CodeGood(env: Env, db: Db, now: Time, id: string, code: string) {
    || (exists step :: DigitsGood(env, db, now, id, code, step))
    || RecoveryGood(db, id, code)
  }

  /** A new session of the account, with both its windows before it. */
  predicate NewSessionIn(env: Env, before: Db, after: Db, now: Time, id: string, token: string) {
    && id in before.accounts.users && token in after.sessions
    && after.sessions == before.sessions[token := Session(id, now + IdleWindow(env, Asked(before, id)),
                                                          now + AbsoluteWindow(env, Asked(before, id)), false, None)]
  }

  // ---- The password step ----------------------------------------------------------------------

  /** Nobody has the address. */
  lemma UnknownAddressRefused(env: Env, db: Db, now: Time, actor: Identity, email: string, password: string,
                              salt: Salt, token: string)
    requires Addresses.Indexed(db)
    requires forall id :: id in db.accounts.users ==> Lower(db.accounts.users[id].email) != Lower(Trim(email))
    ensures LoginNext(env, db, now, actor, Login(email, password, salt, token))
         == (db, Refused(InvalidCredentials))
  {
    assert Addresses.Leads(db, Lower(Trim(email)));
  }

  /** The address, in any letter case and with any blanks around it, is the account's. */
  predicate Addressed(db: Db, email: string, id: string) {
    id in db.accounts.users && Lower(db.accounts.users[id].email) == Lower(Trim(email))
  }

  /** However it is typed: letters in either case, blanks at either end. */
  lemma TypedAddressFindsTheAccount(db: Db, id: string, left: string, typed: string, right: string)
    requires id in db.accounts.users && SameLetters(typed, db.accounts.users[id].email)
    requires typed != "" && !IsBlank(typed[0]) && !IsBlank(typed[|typed| - 1])
    requires forall i :: 0 <= i < |left| ==> IsBlank(left[i])
    requires forall i :: 0 <= i < |right| ==> IsBlank(right[i])
    ensures Addressed(db, (left + typed) + right, id)
  {
    TrimTakesBlanks(left, typed, right);
    LowerIgnoresCase(typed, db.accounts.users[id].email);
  }

  lemma AddressedIsFound(env: Env, db: Db, now: Time, actor: Identity, email: string, password: string, salt: Salt,
                         token: string, id: string)
    requires Addresses.Indexed(db) && Addressed(db, email, id)
    ensures LoginNext(env, db, now, actor, Login(email, password, salt, token))
         == Logins.LoginAs(env, db, now, id, password, salt, token)
  {
    assert Addresses.Filed(db, id);
  }

  /** A sign-in stops at a session exactly when the password is the account's, the
      account is enabled and has no second factor, and at a step-one token exactly
      when it has one. */
  lemma SignInIff(env: Env, db: Db, now: Time, actor: Identity, email: string, password: string, salt: Salt,
                  token: string, id: string)
    requires Addresses.Indexed(db) && Addressed(db, email, id)
    ensures var outcome := LoginNext(env, db, now, actor, Login(email, password, salt, token)).1;
            var right := Open(db, id) && PasswordIs(env, db, id, password);
            var factored := HoldsKey(db, id) || HoldsTotp(db, id);
            && (outcome == SessionIssued(token) <==> right && !factored && token !in db.minted)
            && (outcome == MfaIssued(token) <==> right && factored && token !in db.minted)
            && (outcome == Refused(CorruptHash) <==>
                  db.accounts.users[id].hash != "" && env.verify(db.accounts.users[id].hash, password).None?)
            && (outcome == Refused(Conflict) <==> right && token in db.minted)
            && (!right && outcome != Refused(CorruptHash) ==> outcome == Refused(InvalidCredentials))
  {
    AddressedIsFound(env, db, now, actor, email, password, salt, token, id);
    Frames.UpgradedFrame(env, db, id, password, salt);
  }

  lemma UpgradeLeaves(env: Env, db: Db, id: string, password: string, salt: Salt)
    requires id in db.accounts.users
    ensures var u := db.accounts.users[id];
            Logins.Upgraded(env, db, id, password, salt).accounts.users
            == db.accounts.users[id := if env.needsRehash(u.hash) then u.(hash := env.hash(password, salt)) else u]
  {
  }

  /** One new session, or one new token that lives five minutes. */
  predicate Admitted(env: Env, before: Db, after: Db, now: Time, id: string, token: string, outcome: Outcome) {
    if outcome.SessionIssued? then NewSessionIn(env, before, after, now, id, token)
    else after.pending.mfaTokens == before.pending.mfaTokens[token := MfaToken(id, now + 300_000_000_000, false)]
  }

  lemma PasswordAdmits(env: Env, db: Db, now: Time, id: string, token: string)
    requires id in db.accounts.users && token !in db.minted
    ensures var (after, outcome) := Logins.AfterPassword(env, db, now, id, token);
            Admitted(env, db, after, now, id, token, outcome) && after.accounts == db.accounts
  {
    LifetimesArePositive(env, Asked(db, id));
  }

  lemma AdmittedAnyway(env: Env, before: Db, upgraded: Db, after: Db, now: Time, id: string, token: string,
                       outcome: Outcome)
    requires upgraded == before.(accounts := upgraded.accounts)
    requires Frames.SameAccounts(before.accounts, upgraded.accounts)
    requires Admitted(env, upgraded, after, now, id, token, outcome)
    ensures Admitted(env, before, after, now, id, token, outcome)
  {
    if outcome.SessionIssued? {
      assert Asked(upgraded, id) == Asked(before, id);
    }
  }

  /** What a sign-in with the right password leaves: an outdated hash replaced by one
      of the password just typed, and a session or a token. */
  lemma SignInLeaves(env: Env, db: Db, now: Time, actor: Identity, email: string, password: string, salt: Salt,
                     token: string, id: string)
    requires Addresses.Indexed(db) && Addressed(db, email, id)
    requires Open(db, id) && PasswordIs(env, db, id, password) && token !in db.minted
    ensures var (after, outcome) := LoginNext(env, db, now, actor, Login(email, password, salt, token));
            var u := db.accounts.users[id];
            && after.accounts.users
               == db.accounts.users[id := if env.needsRehash(u.hash) then u.(hash := env.hash(password, salt)) else u]
            && Admitted(env, db, after, now, id, token, outcome)
  {
    AddressedIsFound(env, db, now, actor, email, password, salt, token, id);
    var upgraded := Logins.Upgraded(env, db, id, password, salt);
    var (after, outcome) := Logins.AfterPassword(env, upgraded, now, id, token);
    UpgradeLeaves(env, db, id, password, salt);
    Frames.UpgradedFrame(env, db, id, password, salt);
    PasswordAdmits(env, upgraded, now, id, token);
    AdmittedAnyway(env, db, upgraded, after, now, id, token, outcome);
  }

  // ---- The second step --------------------------------------------------------------------------

  lemma CodeVerified(env: Env, db: Db, now: Time, id: string, code: string)
    ensures Logins.VerifyFactor(env, db, now, id, code).1.None? <==> CodeGood(env, db, now, id, code)
  {
    if HoldsTotp(db, id) && RecoveryCode.LooksLikeTotp(code) {
      var v := Logins.TotpVerdict(env, db.factors.enrollments[id], now, code);
      assert v.Accepted? ==> DigitsGood(env, db, now, id, code, v.step);
    }
  }

  /** What an accepted code leaves: its step, or itself, used. */
  ghost predicate CodeUsed(env: Env, before: Db, after: Db, now: Time, id: string, code: string) {
    && (forall step :: DigitsGood(env, before, now, id, code, step) ==>
          after.factors.enrollments
            == before.factors.enrollments[id := before.factors.enrollments[id].(lastUsedStep := step)])
    && (RecoveryGood(before, id, code) ==>
          after.factors.recovery
            == before.factors.recovery[id := before.factors.recovery[id][RecoveryCode.Normalize(code) := true]])
  }

  lemma AcceptedCodeIsUsed(env: Env, db: Db, now: Time, id: string, code: string)
    requires CodeGood(env, db, now, id, code)
    ensures CodeUsed(env, db, Logins.VerifyFactor(env, db, now, id, code).0, now, id, code)
  {
    var e := db.factors.enrollments[id];
    Totp.AcceptedIsFreshAndNear(env.hotp, e.secret, code, now, e.lastUsedStep, 1);
  }

  lemma RefusedCodeIsKept(env: Env, db: Db, now: Time, id: string, code: string)
    ensures !CodeGood(env, db, now, id, code) ==> Logins.VerifyFactor(env, db, now, id, code).0 == db
  {
    CodeVerified(env, db, now, id, code);
  }

  /** A code completes a sign-in exactly when its token is good, the account the
      token names is still enabled, and the code is good for it. */
  lemma CodeSignsInIff(env: Env, db: Db, now: Time, actor: Identity, t: string, code: string, token: string)
    ensures var (after, outcome) := LoginNext(env, db, now, actor, CompleteMFA(t, code, token));
            && (outcome == SessionIssued(token) <==>
               && TokenGood(db, now, t) && Open(db, db.pending.mfaTokens[t].user)
               && CodeGood(env, db, now, db.pending.mfaTokens[t].user, code) && token !in db.minted)
            && (!TokenGood(db, now, t) ==> after == db && outcome == Refused(InvalidMfaToken))
            && (TokenGood(db, now, t) && !CodeGood(env, db, now, db.pending.mfaTokens[t].user, code) ==>
                  after.factors == db.factors && after.sessions == db.sessions)
  {
    if TokenGood(db, now, t) {
      var claimed, id := Logins.Claimed(db, t), db.pending.mfaTokens[t].user;
      CodeVerified(env, claimed, now, id, code);
      CodeGoodAnyway(env, db, claimed, now, id, code);
      RefusedCodeIsKept(env, claimed, now, id, code);
      Frames.VerifyFactorFrame(env, claimed, now, id, code);
    }
  }

  lemma CodeGoodAnyway(env: Env, before: Db, claimed: Db, now: Time, id: string, code: string)
    requires claimed.factors == before.factors
    ensures CodeGood(env, claimed, now, id, code) <==> CodeGood(env, before, now, id, code)
  {
    assert forall step ::
        DigitsGood(env, claimed, now, id, code, step) <==> DigitsGood(env, before, now, id, code, step);
  }

  lemma IssuingLeaves(env: Env, db: Db, now: Time, id: string, token: string)
    requires id in db.accounts.users && token !in db.minted
    ensures var (after, outcome) := Logins.IssueSession(env, db, now, id, token);
            NewSessionIn(env, db, after, now, id, token) && after.factors == db.factors
  {
    LifetimesArePositive(env, Asked(db, id));
  }

  /** What it leaves: one new session for that account, and the code used. */
  lemma CodeSignInLeaves(env: Env, db: Db, now: Time, actor: Identity, t: string, code: string, token: string)
    requires LoginNext(env, db, now, actor, CompleteMFA(t, code, token)).1 == SessionIssued(token)
    ensures var after := LoginNext(env, db, now, actor, CompleteMFA(t, code, token)).0;
            && t in db.pending.mfaTokens
            && NewSessionIn(env, db, after, now, db.pending.mfaTokens[t].user, token)
            && CodeUsed(env, db, after, now, db.pending.mfaTokens[t].user, code)
  {
    CodeSignsInIff(env, db, now, actor, t, code, token);
    var claimed, id := Logins.Claimed(db, t), db.pending.mfaTokens[t].user;
    var checked := Logins.VerifyFactor(env, claimed, now, id, code).0;
    CodeGoodAnyway(env, db, claimed, now, id, code);
    CodeVerified(env, claimed, now, id, code);
    AcceptedCodeIsUsed(env, claimed, now, id, code);
    Frames.VerifyFactorFrame(env, claimed, now, id, code);
    IssuingLeaves(env, checked, now, id, token);
    UsedAnyway(env, db, claimed, checked, now, id, code);
  }

  lemma UsedAnyway(env: Env, before: Db, claimed: Db, after: Db, now: Time, id: string, code: string)
    requires claimed.factors == before.factors && CodeUsed(env, claimed, after, now, id, code)
    ensures CodeUsed(env, before, after, now, id, code)
  {
    assert forall step ::
        DigitsGood(env, before, now, id, code, step) ==> DigitsGood(env, claimed, now, id, code, step);
  }

  // ---- Ceremonies ------------------------------------------------------------------------------

  /** A new challenge, for two minutes. */
  predicate NewChallengeIn(before: Db, after: Db, now: Time, c: string, user: string, purpose: Purpose) {
    after.pending.challenges
      == before.pending.challenges[c := Challenge(user, purpose, now + 120_000_000_000, false)]
  }

  lemma KeySignInBegunIff(env: Env, db: Db, now: Time, actor: Identity, t: string, c: string)
    ensures var (after, outcome) := LoginNext(env, db, now, actor, BeginPasskeyLogin(t, c));
            && (outcome == CeremonyBegun(c) <==>
                  && TokenGood(db, now, t) && c !in db.minted && db.pending.mfaTokens[t].user in db.accounts.users
                  && HoldsKey(db, db.pending.mfaTokens[t].user))
            && (outcome == CeremonyBegun(c) ==>
                  NewChallengeIn(db, after, now, c, db.pending.mfaTokens[t].user, SignIn))
  {
  }

  lemma KeySignInFinishedIff(env: Env, db: Db, now: Time, actor: Identity, c: string, assertion: Option<string>,
                             token: string)
    ensures var (after, outcome) := LoginNext(env, db, now, actor, CompletePasskeyLogin(c, assertion, token));
            && (outcome == SessionIssued(token) <==>
                  && ChallengeGood(db, now, c, SignIn) && Open(db, db.pending.challenges[c].user)
                  && KeyAnswers(db, db.pending.challenges[c].user, assertion) && token !in db.minted)
            && (outcome == SessionIssued(token) ==>
                  NewSessionIn(env, db, after, now, db.pending.challenges[c].user, token))
  {
    if ChallengeGood(db, now, c, SignIn) && Open(db, db.pending.challenges[c].user) {
      LifetimesArePositive(env, Asked(db, db.pending.challenges[c].user));
    }
  }

  lemma PasswordlessBegunIff(env: Env, db: Db, now: Time, actor: Identity, c: string)
    ensures var (after, outcome) := LoginNext(env, db, now, actor, BeginPasswordlessLogin(c));
            && (outcome == CeremonyBegun(c) <==> c !in db.minted)
            && (outcome == CeremonyBegun(c) ==> NewChallengeIn(db, after, now, c, "", Passwordless))
  {
  }

  lemma PasswordlessFinishedIff(env: Env, db: Db, now: Time, actor: Identity, c: string, handle: string,
                                assertion: Option<string>, token: string)
    ensures var (after, outcome) :=
              LoginNext(env, db, now, actor, CompletePasswordlessLogin(c, handle, assertion, token));
            && (outcome == SessionIssued(token) <==>
                  && ChallengeGood(db, now, c, Passwordless) && Open(db, handle)
                  && KeyAnswers(db, handle, assertion) && token !in db.minted)
            && (outcome == SessionIssued(token) ==> NewSessionIn(env, db, after, now, handle, token))
  {
    if Open(db, handle) {
      LifetimesArePositive(env, Asked(db, handle));
    }
  }

  /** The session is unrevoked, inside both its windows, and of an enabled account. */
  predicate SessionGood(db: Db, now: Time, t: string) {
    && t in db.sessions && !db.sessions[t].revoked && Open(db, db.sessions[t].user)
    && now < db.sessions[t].expiresAt && now < db.sessions[t].absoluteExpiresAt
  }

  // ---- Requests ----------------------------------------------------------------------------------

  /** A session resolves exactly while it is good: to its account, with the account's
      organization and its present role. Its idle window starts again, up to its
      ceiling. */
  lemma SessionResolvesIff(env: Env, db: Db, now: Time, actor: Identity, t: string)
    ensures var (after, outcome) := LoginNext(env, db, now, actor, AuthenticateSession(t));
            && (outcome.Resolved? <==> t != "" && SessionGood(db, now, t))
            && (outcome.Resolved? ==>
                  var s, u := db.sessions[t], db.accounts.users[db.sessions[t].user];
                  && outcome.identity == Identity(s.user, u.org, u.role, t, s.steppedUpAt)
                  && after == db.(sessions := db.sessions[t := s.(
                                expiresAt := Earlier(now + IdleWindow(env, Asked(db, s.user)), s.absoluteExpiresAt))]))
            && (!outcome.Resolved? ==>
                  after == db && outcome == Refused(if t == "" then NoCredentials else InvalidCredentials))
  {
    if t in db.sessions && Open(db, db.sessions[t].user) {
      LifetimesArePositive(env, Asked(db, db.sessions[t].user));
    }
  }

  /** A key resolves to its owner with the key's own role, and to no session. */
  lemma KeyResolvesIff(env: Env, db: Db, now: Time, actor: Identity, key: string)
    ensures var (after, outcome) := LoginNext(env, db, now, actor, AuthenticateAPIKey(key));
            && after == db
            && (outcome.Resolved? <==>
                  && key != "" && key in db.accounts.keys && !db.accounts.keys[key].revoked
                  && Open(db, db.accounts.keys[key].user))
            && (outcome.Resolved? ==>
                  var k := db.accounts.keys[key];
                  outcome.identity == Identity(k.user, db.accounts.users[k.user].org, k.role, "", None))
            && (!outcome.Resolved? ==> outcome == Refused(if key == "" then NoCredentials else InvalidCredentials))
  {
  }

  /** A logout revokes its own session, if it is live, and no other. */
  lemma LogoutLeaves(env: Env, db: Db, now: Time, actor: Identity, t: string)
    ensures LoginNext(env, db, now, actor, Logout(t)).1 == Done
    ensures LoginNext(env, db, now, actor, Logout(t)).0
         == if SessionGood(db, now, t) then db.(sessions := db.sessions[t := db.sessions[t].(revoked := true)]) else db
  {
  }

  // ---- Step-up ------------------------------------------------------------------------------------

  /** The mark of a re-verification, on one session alone. */
  predicate Marked(before: Db, after: Db, now: Time, session: string) {
    after.sessions
      == if session in before.sessions
         then before.sessions[session := before.sessions[session].(steppedUpAt := Some(now))]
         else before.sessions
  }

  /** What a step-up asks of an account: its authenticator if it has one, nothing
      but a key if it only has keys, and its password if it has neither. */
  ghost predicate Proves(env: Env, db: Db, now: Time, id: string, secret: string) {
    if HoldsTotp(db, id) then CodeGood(env, db, now, id, secret)
    else !HoldsKey(db, id) && Open(db, id) && PasswordIs(env, db, id, secret)
  }

  lemma StepUpIff(env: Env, db: Db, now: Time, actor: Identity, secret: string)
    ensures var (after, outcome) := LoginNext(env, db, now, actor, StepUpWithSecret(secret));
            && (outcome == Done <==>
                  actor.user != "" && actor.session != "" && Proves(env, db, now, actor.user, secret))
            && (outcome == Done ==> Marked(db, after, now, actor.session))
            && (outcome == Done && HoldsTotp(db, actor.user) ==> CodeUsed(env, db, after, now, actor.user, secret))
            && (outcome != Done ==> after == db)
            && (outcome == Refused(StepUpNeedsPasskey) <==>
                  && actor.user != "" && actor.session != ""
                  && !HoldsTotp(db, actor.user) && HoldsKey(db, actor.user))
  {
    CodeVerified(env, db, now, actor.user, secret);
    RefusedCodeIsKept(env, db, now, actor.user, secret);
    Frames.VerifyFactorFrame(env, db, now, actor.user, secret);
    if CodeGood(env, db, now, actor.user, secret) {
      AcceptedCodeIsUsed(env, db, now, actor.user, secret);
    }
  }

  lemma KeyStepUpBegunIff(env: Env, db: Db, now: Time, actor: Identity, c: string)
    ensures var (after, outcome) := LoginNext(env, db, now, actor, BeginStepUpWithPasskey(c));
            && (outcome == CeremonyBegun(c) <==>
                  && actor.user != "" && actor.session != "" && actor.user in db.accounts.users
                  && HoldsKey(db, actor.user) && c !in db.minted)
            && (outcome == CeremonyBegun(c) ==> NewChallengeIn(db, after, now, c, actor.user, StepUp))
  {
  }

  lemma KeyStepUpFinishedIff(env: Env, db: Db, now: Time, actor: Identity, c: string, assertion: Option<string>)
    ensures var (after, outcome) := LoginNext(env, db, now, actor, CompleteStepUpWithPasskey(c, assertion));
            && (outcome == Done <==>
                  && actor.user != "" && actor.session != "" && actor.user in db.accounts.users
                  && ChallengeGood(db, now, c, StepUp) && db.pending.challenges[c].user == actor.user
                  && KeyAnswers(db, actor.user, assertion))
            && (outcome == Done ==> Marked(db, after, now, actor.session))
  {
  }

  /** What a client is told to ask for. */
  lemma MethodAnnounced(db: Db, user: string)
    requires user != ""
    ensures Logins.StepUpMethodFor(db, user)
         == if HoldsTotp(db, user) then Logins.ByFactor else if HoldsKey(db, user) then Logins.ByPasskey
            else Logins.ByPassword
  {
  }
}
