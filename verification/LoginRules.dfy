/** Signing in, sessions and step-up (authenticator.go, stepup.go, and the parts
    of mfa.go and webauthn.go they call), one function per operation. */
module LoginRules {
  import opened Prelude
  import opened State
  import opened Text
  import RecoveryCode
  import Totp

  const IDLE_TIMEOUT: Time := 12 * HOUR
  const ABSOLUTE_TIMEOUT: Time := 7 * 24 * HOUR
  const MFA_TOKEN_LIFETIME: Time := 5 * MINUTE
  const CHALLENGE_LIFETIME: Time := 2 * MINUTE
  const STEP_UP_WINDOW: Time := 10 * MINUTE

  // ---- Sessions --------------------------------------------------------------------

  /** sessionLifetimes: the idle and the absolute window for an account. */
  function SessionLifetimes(env: Env, p: Profile): (Time, Time) {
    match env.lifetimes
    case None => (IDLE_TIMEOUT, ABSOLUTE_TIMEOUT)
    case Some(rule) =>
      var idle := if rule(p).0 > 0 then rule(p).0 else IDLE_TIMEOUT;
      var absolute := if rule(p).1 > 0 then rule(p).1 else ABSOLUTE_TIMEOUT;
      (idle, if absolute < idle then idle else absolute)
  }

  function NewSession(env: Env, now: Time, p: Profile): Session {
    var (idle, absolute) := SessionLifetimes(env, p);
    Session(p.id, now + idle, now + absolute, false, None)
  }

  /** issueSession. */
  function IssueSession(env: Env, db: Db, now: Time, id: string, token: string): (Db, Outcome)
    requires id in db.accounts.users
  {
    if token in db.minted then (db, Refused(Conflict))
    else (WithMinted(WithSession(db, token, NewSession(env, now, ProfileOf(db, id))), token), SessionIssued(token))
  }

  /** The re-read every completion makes before it issues a session: the account
      may have gone or been disabled since the first step. */
  function IssueIfEnabled(env: Env, db: Db, now: Time, id: string, token: string): (Db, Outcome) {
    if !Enabled(db, id) then (db, Refused(InvalidCredentials)) else IssueSession(env, db, now, id, token)
  }

  /** TouchSession, clamped to the absolute ceiling. */
  function Touched(env: Env, now: Time, p: Profile, s: Session): Session {
    var extended := now + SessionLifetimes(env, p).0;
    s.(expiresAt := if s.absoluteExpiresAt < extended then s.absoluteExpiresAt else extended)
  }

  function AuthenticateSession(env: Env, db: Db, now: Time, token: string): (Db, Outcome) {
    if token == "" then (db, Refused(NoCredentials))
    else if !Live(db, now, token) then (db, Refused(InvalidCredentials))
    else
      var s := db.sessions[token];
      (WithSession(db, token, Touched(env, now, ProfileOf(db, s.user), s)), Resolved(SessionIdentity(db, token)))
  }

  function AuthenticateAPIKey(db: Db, key: string): (Db, Outcome) {
    if key == "" then (db, Refused(NoCredentials))
    else if !LiveKey(db, key) then (db, Refused(InvalidCredentials))
    else (db, Resolved(KeyIdentity(db, key)))
  }

  function Logout(db: Db, now: Time, token: string): (Db, Outcome) {
    if !Live(db, now, token) then (db, Done)
    else (WithSession(db, token, db.sessions[token].(revoked := true)), Done)
  }

  // ---- Step-one tokens and second factors --------------------------------------------

  /** IssueMFAToken. */
  function IssueMfaToken(db: Db, now: Time, id: string, token: string): (Db, Outcome) {
    if token in db.minted then (db, Refused(Conflict))
    else
      (WithMinted(WithToken(db, token, MfaToken(id, now + MFA_TOKEN_LIFETIME, false)), token), MfaIssued(token))
  }

  /** What ClaimMFAToken accepts. */
  predicate Claimable(db: Db, now: Time, token: string) {
    && token != ""
    && token in db.pending.mfaTokens
    && !db.pending.mfaTokens[token].used
    && now < db.pending.mfaTokens[token].expiresAt
  }

  function Claimed(db: Db, token: string): Db
    requires token in db.pending.mfaTokens
  {
    WithToken(db, token, db.pending.mfaTokens[token].(used := true))
  }

  /** The step VerifyFactor would accept this code for, by ValidateTOTPCode. */
  function TotpVerdict(env: Env, e: Enrollment, now: Time, code: string): Totp.Verdict {
    Totp.Validate(env.hotp, e.secret, code, now, e.lastUsedStep, Totp.SKEW)
  }

  /** VerifyFactor: the tables after, and the error if there is one. */
  function VerifyFactor(env: Env, db: Db, now: Time, id: string, code: string): (r: (Db, Option<Error>))
    ensures r.0.accounts.users == db.accounts.users
  {
    if !HasConfirmedTotp(db, id) then (db, Some(MfaNotEnrolled))
    else if RecoveryCode.LooksLikeTotp(code) then VerifyTotp(env, db, now, id, code)
    else VerifyRecovery(db, id, RecoveryCode.Normalize(code))
  }

  function VerifyTotp(env: Env, db: Db, now: Time, id: string, code: string): (Db, Option<Error>)
    requires id in db.factors.enrollments
  {
    var e := db.factors.enrollments[id];
    match TotpVerdict(env, e, now, code)
    case Accepted(step) =>
      (WithEnrollment(db, id, e.(lastUsedStep := if step > e.lastUsedStep then step else e.lastUsedStep)), None)
    case Replayed(_) => (db, Some(InvalidTotpCode))
    case Invalid => (db, Some(InvalidTotpCode))
  }

  function VerifyRecovery(db: Db, id: string, code: string): (Db, Option<Error>) {
    if code == "" || !UnusedCode(db, id, code) then (db, Some(InvalidRecoveryCode))
    else (WithRecovery(db, id, db.factors.recovery[id][code := true]), None)
  }

  // ---- Ceremonies ------------------------------------------------------------------

  /** storeCeremony. */
  function StoreCeremony(db: Db, now: Time, id: string, user: string, purpose: Purpose): (Db, Outcome) {
    if id in db.minted then (db, Refused(Conflict))
    else
      (WithMinted(
         WithChallenge(db, id, Challenge(user, purpose, now + CHALLENGE_LIFETIME, false)), id), CeremonyBegun(id))
  }

  /** A challenge that can still be claimed for a purpose. */
  predicate Open(db: Db, now: Time, id: string, purpose: Purpose) {
    && id in db.pending.challenges
    && !db.pending.challenges[id].used
    && db.pending.challenges[id].purpose == purpose
    && now < db.pending.challenges[id].expiresAt
  }

  function Spent(db: Db, id: string): Db
    requires id in db.pending.challenges
  {
    WithChallenge(db, id, db.pending.challenges[id].(used := true))
  }

  /** The assertion check: `assertion` is the credential the library validated
      the response against, None when it rejected it; it must be the account's. */
  predicate AssertedBy(db: Db, user: string, assertion: Option<string>) {
    && assertion.Some?
    && exists row :: row in db.factors.credentials && db.factors.credentials[row] == Credential(user, assertion.value)
  }

  /** BeginLogin and BeginStepUp of WebAuthnService. */
  function BeginAssertion(db: Db, now: Time, user: string, purpose: Purpose, id: string): (Db, Outcome) {
    if user !in db.accounts.users then (db, Refused(NotFound))
    else if !HasKeys(db, user) then (db, Refused(NotRegistered))
    else StoreCeremony(db, now, id, user, purpose)
  }

  /** What follows a claimed assertion challenge; None is success. */
  function CheckAssertion(db: Db, user: string, assertion: Option<string>): Option<Error> {
    if user !in db.accounts.users then Some(NotFound)
    else if !AssertedBy(db, user, assertion) then Some(Rejected)
    else None
  }

  // ---- Signing in ------------------------------------------------------------------

  /** The transparent cost upgrade of a hash whose password is in hand. */
  function Upgraded(env: Env, db: Db, id: string, password: string, salt: Salt): (r: Db)
    requires id in db.accounts.users
    ensures r.accounts.users.Keys == db.accounts.users.Keys
  {
    if env.needsRehash(db.accounts.users[id].hash) then WithHash(db, id, env.hash(password, salt)) else db
  }

  /** Where a correct password stops: at a second factor, or with a session. */
  function AfterPassword(env: Env, db: Db, now: Time, id: string, token: string): (Db, Outcome)
    requires id in db.accounts.users
  {
    if RequiresSecondFactor(db, id) then IssueMfaToken(db, now, id, token)
    else IssueSession(env, db, now, id, token)
  }

  /** Login, once the account is known. */
  function LoginAs(env: Env, db: Db, now: Time, id: string, password: string, salt: Salt, token: string)
    : (Db, Outcome)
    requires id in db.accounts.users
  {
    var u := db.accounts.users[id];
    if u.hash == "" then (db, Refused(InvalidCredentials))
    else
      match env.verify(u.hash, password)
      case None => (db, Refused(CorruptHash))
      case Some(ok) =>
        if !ok || u.disabled then (db, Refused(InvalidCredentials))
        else AfterPassword(env, Upgraded(env, db, id, password, salt), now, id, token)
  }

  function Login(env: Env, db: Db, now: Time, email: string, password: string, salt: Salt, token: string)
    : (Db, Outcome)
  {
    var address := Lower(Trim(email));
    if address !in db.accounts.emails || db.accounts.emails[address] !in db.accounts.users then
      (db, Refused(InvalidCredentials))
    else LoginAs(env, db, now, db.accounts.emails[address], password, salt, token)
  }

  function CompleteMFA(env: Env, db: Db, now: Time, mfaToken: string, code: string, token: string): (Db, Outcome) {
    if !Claimable(db, now, mfaToken) then (db, Refused(InvalidMfaToken))
    else
      var id := db.pending.mfaTokens[mfaToken].user;
      var claimed := Claimed(db, mfaToken);
      if !Enabled(claimed, id) then (claimed, Refused(InvalidCredentials))
      else
        var (checked, error) := VerifyFactor(env, claimed, now, id, code);
        if error.Some? then (checked, Refused(error.value)) else IssueSession(env, checked, now, id, token)
  }

  function BeginPasskeyLogin(db: Db, now: Time, mfaToken: string, id: string): (Db, Outcome) {
    if !Claimable(db, now, mfaToken) then (db, Refused(InvalidMfaToken))
    else BeginAssertion(Claimed(db, mfaToken), now, db.pending.mfaTokens[mfaToken].user, SignIn, id)
  }

  function CompletePasskeyLogin(env: Env, db: Db, now: Time, challenge: string, assertion: Option<string>,
                                token: string): (Db, Outcome)
  {
    if !Open(db, now, challenge, SignIn) then (db, Refused(CeremonyExpired))
    else
      var id := db.pending.challenges[challenge].user;
      var spent := Spent(db, challenge);
      match CheckAssertion(spent, id, assertion)
      case Some(e) => (spent, Refused(e))
      case None => IssueIfEnabled(env, spent, now, id, token)
  }

  function BeginPasswordlessLogin(db: Db, now: Time, id: string): (Db, Outcome) {
    StoreCeremony(db, now, id, "", Passwordless)
  }

  /** `handle` is the user handle the authenticator returned. */
  function CompletePasswordlessLogin(env: Env, db: Db, now: Time, challenge: string, handle: string,
                                     assertion: Option<string>, token: string): (Db, Outcome)
  {
    if !Open(db, now, challenge, Passwordless) then (db, Refused(CeremonyExpired))
    else
      var spent := Spent(db, challenge);
      if CheckAssertion(spent, handle, assertion).Some? then (spent, Refused(Rejected))
      else IssueIfEnabled(env, spent, now, handle, token)
  }

  // ---- Step-up ---------------------------------------------------------------------

  /** verifyPasswordFor; None is success. */
  function PasswordCheck(env: Env, db: Db, id: string, password: string): Option<Error> {
    if id !in db.accounts.users then Some(NotFound)
    else if db.accounts.users[id].hash == "" || db.accounts.users[id].disabled then Some(InvalidCredentials)
    else
      match env.verify(db.accounts.users[id].hash, password)
      case None => Some(CorruptHash)
      case Some(ok) => if ok then None else Some(InvalidCredentials)
  }

  predicate HasSession(actor: Identity) {
    actor.user != "" && actor.session != ""
  }

  /** Identity.SteppedUp. */
  predicate SteppedUp(actor: Identity, now: Time) {
    actor.steppedUpAt.Some? && now - actor.steppedUpAt.value < STEP_UP_WINDOW
  }

  datatype Method = ByPassword | ByFactor | ByPasskey

  /** StepUpMethodFor. */
  function StepUpMethodFor(db: Db, user: string): Method {
    if user == "" then ByPassword
    else if HasConfirmedTotp(db, user) then ByFactor
    else if RequiresSecondFactor(db, user) then ByPasskey
    else ByPassword
  }

  /** The proof StepUp asks of an account: the tables after, and the error. */
  function StepUpProof(env: Env, db: Db, now: Time, user: string, secret: string): (Db, Option<Error>) {
    if HasConfirmedTotp(db, user) then VerifyFactor(env, db, now, user, secret)
    else if RequiresSecondFactor(db, user) then (db, Some(StepUpNeedsPasskey))
    else (db, PasswordCheck(env, db, user, secret))
  }

  function StepUpWithSecret(env: Env, db: Db, now: Time, actor: Identity, secret: string): (Db, Outcome) {
    if !HasSession(actor) then (db, Refused(StepUpRequired))
    else
      var (checked, error) := StepUpProof(env, db, now, actor.user, secret);
      if error.Some? then (checked, Refused(error.value)) else (WithStamp(checked, actor.session, now), Done)
  }

  function BeginStepUpWithPasskey(db: Db, now: Time, actor: Identity, id: string): (Db, Outcome) {
    if !HasSession(actor) then (db, Refused(StepUpRequired))
    else BeginAssertion(db, now, actor.user, StepUp, id)
  }

  function CompleteStepUpWithPasskey(db: Db, now: Time, actor: Identity, challenge: string,
                                     assertion: Option<string>): (Db, Outcome)
  {
    if !HasSession(actor) then (db, Refused(StepUpRequired))
    else if !Open(db, now, challenge, StepUp) || db.pending.challenges[challenge].user != actor.user then
      (db, Refused(CeremonyExpired))
    else
      var spent := Spent(db, challenge);
      match CheckAssertion(spent, actor.user, assertion)
      case Some(e) => (spent, Refused(e))
      case None => (WithStamp(spent, actor.session, now), Done)
  }
}
