/** Enrolling and removing second factors (mfa.go, webauthn.go), one function per
    operation. */
module FactorRules {
  import opened Prelude
  import opened Roles
  import opened State
  import opened LoginRules

  function BeginEnrollment(db: Db, actor: Identity, secret: string): (Db, Outcome) {
    if actor.user == "" then (db, Refused(NotPermitted))
    else if HasConfirmedTotp(db, actor.user) then (db, Refused(MfaAlreadyConfirmed))
    else (WithEnrollment(db, actor.user, Enrollment(secret, false, 0)), Done)
  }

  /** `codes` are the recovery codes drawn. */
  function ConfirmEnrollment(env: Env, db: Db, now: Time, actor: Identity, code: string, codes: set<string>)
    : (Db, Outcome)
  {
    if actor.user == "" then (db, Refused(NotPermitted))
    else if actor.user !in db.factors.enrollments then (db, Refused(MfaNotEnrolled))
    else if db.factors.enrollments[actor.user].confirmed then (db, Refused(MfaAlreadyConfirmed))
    else
      var e := db.factors.enrollments[actor.user];
      match TotpVerdict(env, e, now, code)
      case Accepted(step) =>
        (WithCodes(WithEnrollment(db, actor.user, Enrollment(e.secret, true, step)), actor.user, codes), Done)
      case Replayed(_) => (db, Refused(InvalidTotpCode))
      case Invalid => (db, Refused(InvalidTotpCode))
  }

  function RegenerateRecoveryCodes(db: Db, actor: Identity, codes: set<string>): (Db, Outcome) {
    if actor.user == "" then (db, Refused(NotPermitted))
    else if !HasConfirmedTotp(db, actor.user) then (db, Refused(MfaNotEnrolled))
    else (WithCodes(db, actor.user, codes), Done)
  }

  /** The authenticator app and the codes that get past it. */
  function WithoutTotp(db: Db, id: string): Db {
    WithCodes(WithoutEnrollment(db, id), id, {})
  }

  function Disable(env: Env, db: Db, actor: Identity, password: string): (Db, Outcome) {
    if actor.user == "" then (db, Refused(NotPermitted))
    else if actor.user !in db.factors.enrollments then (db, Refused(MfaNotEnrolled))
    else if actor.user !in db.accounts.users then (db, Refused(NotFound))
    else if db.accounts.users[actor.user].hash == "" then (db, Refused(InvalidCredentials))
    else
      match env.verify(db.accounts.users[actor.user].hash, password)
      case None => (db, Refused(CorruptHash))
      case Some(ok) => if !ok then (db, Refused(InvalidCredentials)) else (WithoutTotp(db, actor.user), Done)
  }

  /** `target` is the row the caller read for `id`. */
  function ClearFactorFor(rules: Rules, db: Db, actor: Identity, id: string, target: User): (Db, Outcome) {
    if !rules.Can(actor.role, rules.manageUsers) then (db, Refused(NotPermitted))
    else if target.org != actor.org then (db, Refused(NotPermitted))
    else if !rules.MayHandle(actor.role, target.role) then (db, Refused(PrivilegedTarget))
    else (WithoutKeysOf(WithoutTotp(db, id), id), Done)
  }

  function BeginRegistration(db: Db, now: Time, actor: Identity, id: string): (Db, Outcome) {
    if actor.user == "" then (db, Refused(NotPermitted))
    else if actor.user !in db.accounts.users then (db, Refused(NotFound))
    else StoreCeremony(db, now, id, actor.user, Registration)
  }

  /** `created` is the credential the library made of the response, None when it
      rejected it; `row` the id drawn for it. */
  function FinishRegistration(db: Db, now: Time, actor: Identity, challenge: string, created: Option<string>,
                              row: string): (Db, Outcome)
  {
    if actor.user == "" then (db, Refused(NotPermitted))
    else if !Open(db, now, challenge, Registration) || db.pending.challenges[challenge].user != actor.user then
      (db, Refused(CeremonyExpired))
    else
      var spent := Spent(db, challenge);
      if actor.user !in db.accounts.users then (spent, Refused(NotFound))
      else if created.None? then (spent, Refused(Rejected))
      else if row in db.minted then (spent, Refused(Conflict))
      else
        (WithMinted(WithCredential(spent, row, Credential(actor.user, created.value)), row), Created(row))
  }

  predicate Holds(db: Db, user: string, row: string) {
    row in db.factors.credentials && db.factors.credentials[row].user == user
  }

  function RevokeCredential(db: Db, now: Time, actor: Identity, row: string, otherFactor: bool): (Db, Outcome) {
    if actor.user == "" then (db, Refused(NotPermitted))
    else if !Holds(db, actor.user, row) then (db, Refused(NotFound))
    else if |KeysOf(db, actor.user)| <= 1 && !otherFactor && !SteppedUp(actor, now) then
      (db, Refused(StepUpRequired))
    else (WithoutCredential(db, row), Done)
  }
}
