/** The deployment as a transition system: every public operation is one atomic
    step, taken at some instant under the permission table then current, by
    whoever the caller was resolved to be. */
module System {
  import opened Prelude
  import opened Roles
  import opened State
  import PasswordPolicy
  import Accounts = AccountRules
  import Logins = LoginRules
  import Factors = FactorRules

  datatype AdminOp =
    | CreateUser(email: string, name: string, role: Role, password: string, salt: Salt, id: string)
    | CreateInvitedUser(email: string, name: string, role: Role, id: string)
    | SetInitialPassword(id: string, password: string, salt: Salt)
    | DisableUser(id: string)
    | EnableUser(id: string)
    | DeleteUser(id: string)
    | SetRole(id: string, role: Role)
    | ChangePassword(current: string, next: string, salt: Salt)
    | ResetPassword(id: string, next: string, salt: Salt)
    | MintAPIKey(requested: Role, key: string)
    | RevokeAPIKey(key: string)
    | SetPasswordPolicy(policy: PasswordPolicy.Policy)

  datatype LoginOp =
    | Login(email: string, password: string, salt: Salt, token: string)
    | CompleteMFA(mfaToken: string, code: string, token: string)
    | BeginPasskeyLogin(mfaToken: string, id: string)
    | CompletePasskeyLogin(challenge: string, assertion: Option<string>, token: string)
    | BeginPasswordlessLogin(id: string)
    | CompletePasswordlessLogin(challenge: string, handle: string, assertion: Option<string>, token: string)
    | AuthenticateSession(token: string)
    | AuthenticateAPIKey(key: string)
    | Logout(token: string)
    | StepUpWithSecret(secret: string)
    | BeginStepUpWithPasskey(id: string)
    | CompleteStepUpWithPasskey(challenge: string, assertion: Option<string>)

  datatype FactorOp =
    | BeginEnrollment(secret: string)
    | ConfirmEnrollment(code: string, codes: set<string>)
    | RegenerateRecoveryCodes(codes: set<string>)
    | DisableFactor(password: string)
    | ClearFactorFor(id: string)
    | BeginRegistration(id: string)
    | FinishRegistration(challenge: string, created: Option<string>, row: string)
    | RevokeCredential(row: string, otherFactor: bool)

  datatype Op = Admin(admin: AdminOp) | Sign(login: LoginOp) | Factor(factor: FactorOp)

  datatype Step = Step(now: Time, rules: Rules, actor: Identity, op: Op)

  function AdminNext(env: Env, db: Db, rules: Rules, actor: Identity, op: AdminOp): (Db, Outcome) {
    match op
    case CreateUser(email, name, role, password, salt, id) =>
      Accounts.CreateUser(env, rules, db, actor, email, name, role, password, salt, id)
    case CreateInvitedUser(email, name, role, id) =>
      Accounts.CreateInvitedUser(rules, db, actor, email, name, role, id)
    case SetInitialPassword(id, password, salt) => Accounts.SetInitialPassword(env, db, id, password, salt)
    case DisableUser(id) => Accounts.DisableUser(rules, db, actor, id)
    case EnableUser(id) => Accounts.EnableUser(rules, db, actor, id)
    case DeleteUser(id) => Accounts.DeleteUser(rules, db, actor, id)
    case SetRole(id, role) => Accounts.SetRole(rules, db, actor, id, role)
    case ChangePassword(current, next, salt) => Accounts.ChangePassword(env, db, actor, current, next, salt)
    case ResetPassword(id, next, salt) => Accounts.ResetPassword(env, rules, db, actor, id, next, salt)
    case MintAPIKey(requested, key) => Accounts.MintAPIKey(rules, db, actor, requested, key)
    case RevokeAPIKey(key) => Accounts.RevokeAPIKey(db, actor, key)
    case SetPasswordPolicy(policy) => Accounts.SetPasswordPolicy(rules, db, actor, policy)
  }

  function LoginNext(env: Env, db: Db, now: Time, actor: Identity, op: LoginOp): (Db, Outcome) {
    match op
    case Login(email, password, salt, token) => Logins.Login(env, db, now, email, password, salt, token)
    case CompleteMFA(mfaToken, code, token) => Logins.CompleteMFA(env, db, now, mfaToken, code, token)
    case BeginPasskeyLogin(mfaToken, id) => Logins.BeginPasskeyLogin(db, now, mfaToken, id)
    case CompletePasskeyLogin(challenge, assertion, token) =>
      Logins.CompletePasskeyLogin(env, db, now, challenge, assertion, token)
    case BeginPasswordlessLogin(id) => Logins.BeginPasswordlessLogin(db, now, id)
    case CompletePasswordlessLogin(challenge, handle, assertion, token) =>
      Logins.CompletePasswordlessLogin(env, db, now, challenge, handle, assertion, token)
    case AuthenticateSession(token) => Logins.AuthenticateSession(env, db, now, token)
    case AuthenticateAPIKey(key) => Logins.AuthenticateAPIKey(db, key)
    case Logout(token) => Logins.Logout(db, now, token)
    case StepUpWithSecret(secret) => Logins.StepUpWithSecret(env, db, now, actor, secret)
    case BeginStepUpWithPasskey(id) => Logins.BeginStepUpWithPasskey(db, now, actor, id)
    case CompleteStepUpWithPasskey(challenge, assertion) =>
      Logins.CompleteStepUpWithPasskey(db, now, actor, challenge, assertion)
  }

  function FactorNext(env: Env, db: Db, now: Time, rules: Rules, actor: Identity, op: FactorOp): (Db, Outcome) {
    match op
    case BeginEnrollment(secret) => Factors.BeginEnrollment(db, actor, secret)
    case ConfirmEnrollment(code, codes) => Factors.ConfirmEnrollment(env, db, now, actor, code, codes)
    case RegenerateRecoveryCodes(codes) => Factors.RegenerateRecoveryCodes(db, actor, codes)
    case DisableFactor(password) => Factors.Disable(env, db, actor, password)
    case ClearFactorFor(id) =>
      // The caller reads the row first, and passes both.
      if id !in db.accounts.users then (db, Refused(NotFound))
      else Factors.ClearFactorFor(rules, db, actor, id, db.accounts.users[id])
    case BeginRegistration(id) => Factors.BeginRegistration(db, now, actor, id)
    case FinishRegistration(challenge, created, row) =>
      Factors.FinishRegistration(db, now, actor, challenge, created, row)
    case RevokeCredential(row, otherFactor) => Factors.RevokeCredential(db, now, actor, row, otherFactor)
  }

  function Next(env: Env, db: Db, step: Step): (Db, Outcome) {
    match step.op
    case Admin(op) => AdminNext(env, db, step.rules, step.actor, op)
    case Sign(op) => LoginNext(env, db, step.now, step.actor, op)
    case Factor(op) => FactorNext(env, db, step.now, step.rules, step.actor, op)
  }

  /** A run: the states passed through, the steps between them and how each
      ended, under a clock that never goes back. */
  datatype Run = Run(env: Env, states: seq<Db>, steps: seq<Step>, outcomes: seq<Outcome>) {

    predicate Shaped() {
      |states| == |steps| + 1 && |outcomes| == |steps|
    }

    ghost predicate Valid() {
      && Shaped()
      && (forall i :: 0 <= i < |steps| ==> Takes(i))
      && (forall i, j :: 0 <= i <= j < |steps| ==> steps[i].now <= steps[j].now)
    }

    /** Step i leads from state i to state i + 1 and ends with outcome i. */
    ghost predicate Takes(i: nat)
      requires Shaped() && i < |steps|
    {
      (states[i + 1], outcomes[i]) == Next(env, states[i], steps[i])
    }
  }
}
