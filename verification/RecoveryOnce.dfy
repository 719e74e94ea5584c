/** A recovery code gets past the second factor once (mfa.go:58-64, 483-496). */
module RecoveryOnce {
  import opened Prelude
  import opened Roles
  import opened State
  import opened System
  import opened Text
  import Logins = LoginRules
  import RecoveryCode
  import Frames

  /** The unused recovery code a verification of this input would spend. */
  function Spendable(db: Db, user: string, input: string): Option<string> {
    var code := RecoveryCode.Normalize(input);
    if HasConfirmedTotp(db, user) && !RecoveryCode.LooksLikeTotp(input) && code != "" && UnusedCode(db, user, code)
    then Some(code) else None
  }

  /** The recovery code an operation accepts for an account, completing its
      sign-in or stepping up its session. */
  function Accepts(before: Db, step: Step, user: string): Option<string> {
    match step.op
    case Sign(CompleteMFA(mfaToken, input, _)) =>
      if Logins.Claimable(before, step.now, mfaToken) && before.pending.mfaTokens[mfaToken].user == user
         && Enabled(before, user)
      then Spendable(before, user, input) else None
    case Sign(StepUpWithSecret(input)) =>
      if Logins.HasSession(step.actor) && step.actor.user == user then Spendable(before, user, input) else None
    case _ => None
  }

  /** The step replaces the account's set, with a new one or with none. */
  predicate Reissues(step: Step, user: string) {
    match step.op
    case Factor(ConfirmEnrollment(_, _)) => step.actor.user == user
    case Factor(RegenerateRecoveryCodes(_)) => step.actor.user == user
    case Factor(DisableFactor(_)) => step.actor.user == user
    case Factor(ClearFactorFor(id)) => id == user
    case _ => false
  }

  /** The account's codes, and whether each is spent. */
  function CodesOf(db: Db, user: string): map<string, bool> {
    if user in db.factors.recovery then db.factors.recovery[user] else map[]
  }

  /** Unless it reissues the set, a step spends the code it accepts and touches no
      other. */
  ghost predicate CodeStep(before: Db, after: Db, step: Step, user: string) {
    !Reissues(step, user) ==>
      match Accepts(before, step, user)
      case Some(code) => CodesOf(after, user) == CodesOf(before, user)[code := true]
      case None => CodesOf(after, user) == CodesOf(before, user)
  }

  lemma VerifySpends(env: Env, db: Db, now: Time, target: string, input: string, user: string)
    ensures var after := Logins.VerifyFactor(env, db, now, target, input).0;
            match if target == user then Spendable(db, user, input) else None
            case Some(code) => CodesOf(after, user) == CodesOf(db, user)[code := true]
            case None => CodesOf(after, user) == CodesOf(db, user)
  {
  }

  lemma CompleteMFASpends(env: Env, before: Db, step: Step, mfaToken: string, input: string, token: string,
                          user: string)
    requires step.op == Sign(CompleteMFA(mfaToken, input, token))
    ensures CodeStep(before, Logins.CompleteMFA(env, before, step.now, mfaToken, input, token).0, step, user)
  {
    if Logins.Claimable(before, step.now, mfaToken) {
      VerifySpends(env, Logins.Claimed(before, mfaToken), step.now, before.pending.mfaTokens[mfaToken].user, input,
                   user);
    }
  }

  lemma StepUpSpends(env: Env, before: Db, step: Step, input: string, user: string)
    requires step.op == Sign(StepUpWithSecret(input))
    ensures CodeStep(before, Logins.StepUpWithSecret(env, before, step.now, step.actor, input).0, step, user)
  {
    VerifySpends(env, before, step.now, step.actor.user, input, user);
  }

  lemma LoginSpends(env: Env, before: Db, step: Step, user: string)
    requires step.op.Sign?
    ensures CodeStep(before, LoginNext(env, before, step.now, step.actor, step.op.login).0, step, user)
  {
    match step.op.login {
      case CompleteMFA(mfaToken, input, token) => CompleteMFASpends(env, before, step, mfaToken, input, token, user);
      case StepUpWithSecret(input) => StepUpSpends(env, before, step, input, user);
      case Login(email, password, salt, token) =>
        var address := Lower(Trim(email));
        if address in before.accounts.emails && before.accounts.emails[address] in before.accounts.users {
          Frames.LoginAsFrame(env, before, step.now, before.accounts.emails[address], password, salt, token);
        }
      case _ => Frames.QuietFrame(env, before, step.now, step.actor, step.op.login);
    }
  }

  lemma ReissuingSpends(env: Env, before: Db, step: Step, user: string)
    requires step.op.Factor?
    requires step.op.factor.ConfirmEnrollment? || step.op.factor.RegenerateRecoveryCodes?
             || step.op.factor.DisableFactor? || step.op.factor.ClearFactorFor?
    ensures CodeStep(before, FactorNext(env, before, step.now, step.rules, step.actor, step.op.factor).0, step, user)
  {
  }

  lemma KeySpends(env: Env, before: Db, step: Step, user: string)
    requires step.op.Factor?
    requires step.op.factor.BeginEnrollment? || step.op.factor.BeginRegistration?
             || step.op.factor.FinishRegistration? || step.op.factor.RevokeCredential?
    ensures CodeStep(before, FactorNext(env, before, step.now, step.rules, step.actor, step.op.factor).0, step, user)
  {
  }

  lemma FactorSpends(env: Env, before: Db, step: Step, user: string)
    requires step.op.Factor?
    ensures CodeStep(before, FactorNext(env, before, step.now, step.rules, step.actor, step.op.factor).0, step, user)
  {
    if step.op.factor.ConfirmEnrollment? || step.op.factor.RegenerateRecoveryCodes?
       || step.op.factor.DisableFactor? || step.op.factor.ClearFactorFor?
    {
      ReissuingSpends(env, before, step, user);
    } else {
      KeySpends(env, before, step, user);
    }
  }

  lemma AnyCodeStep(env: Env, before: Db, step: Step, user: string)
    ensures CodeStep(before, Next(env, before, step).0, step, user)
  {
    match step.op {
      case Admin(op) => Frames.AdminFrame(env, before, step.rules, step.actor, op);
      case Sign(op) => LoginSpends(env, before, step, user);
      case Factor(op) => FactorSpends(env, before, step, user);
    }
  }

  predicate Spent(db: Db, user: string, code: string) {
    code in CodesOf(db, user) && CodesOf(db, user)[code]
  }

  lemma RunCodeStep(run: Run, k: nat, user: string)
    requires run.Valid() && k < |run.steps|
    ensures CodeStep(run.states[k], run.states[k + 1], run.steps[k], user)
  {
    AnyCodeStep(run.env, run.states[k], run.steps[k], user);
    assert run.Takes(k);
  }

  lemma StepKeepsSpent(run: Run, k: nat, user: string, code: string)
    requires run.Valid() && k < |run.steps| && !Reissues(run.steps[k], user) && Spent(run.states[k], user, code)
    ensures Spent(run.states[k + 1], user, code)
  {
    RunCodeStep(run, k, user);
  }

  lemma {:induction false} StaysSpent(run: Run, i: nat, j: nat, user: string, code: string)
    requires run.Valid() && i <= j < |run.states| && Spent(run.states[i], user, code)
    requires forall k :: i <= k < j ==> !Reissues(run.steps[k], user)
    ensures Spent(run.states[j], user, code)
  {
    if i < j {
      StaysSpent(run, i, j - 1, user, code);
      StepKeepsSpent(run, j - 1, user, code);
    }
  }

  /** No recovery code is accepted twice, over any run in which the account's set
      is not reissued between. */
  lemma AcceptedOnce(run: Run, i: nat, j: nat, user: string)
    requires run.Valid() && i < j < |run.steps|
    requires Accepts(run.states[i], run.steps[i], user).Some? && Accepts(run.states[j], run.steps[j], user).Some?
    requires forall k :: i < k < j ==> !Reissues(run.steps[k], user)
    ensures Accepts(run.states[i], run.steps[i], user) != Accepts(run.states[j], run.steps[j], user)
  {
    var code := Accepts(run.states[i], run.steps[i], user).value;
    RunCodeStep(run, i, user);
    StaysSpent(run, i + 1, j, user, code);
  }

  lemma CompleteMFAByRecovery(env: Env, before: Db, step: Step, mfaToken: string, input: string, token: string)
    requires step.op == Sign(CompleteMFA(mfaToken, input, token)) && mfaToken in before.pending.mfaTokens
    requires !RecoveryCode.LooksLikeTotp(input)
    requires Logins.CompleteMFA(env, before, step.now, mfaToken, input, token).1.SessionIssued?
    ensures Accepts(before, step, before.pending.mfaTokens[mfaToken].user) == Some(RecoveryCode.Normalize(input))
  {
    var user := before.pending.mfaTokens[mfaToken].user;
    assert UnusedCode(Logins.Claimed(before, mfaToken), user, RecoveryCode.Normalize(input)) ==>
        UnusedCode(before, user, RecoveryCode.Normalize(input));
  }

  /** A sign-in completed with anything but six digits is one that accepted a
      recovery code. */
  lemma SuccessIsAcceptance(env: Env, before: Db, step: Step, user: string)
    requires step.op.Sign? && step.op.login.CompleteMFA? && step.op.login.mfaToken in before.pending.mfaTokens
    requires before.pending.mfaTokens[step.op.login.mfaToken].user == user
    requires !RecoveryCode.LooksLikeTotp(step.op.login.code) && Next(env, before, step).1.SessionIssued?
    ensures Accepts(before, step, user) == Some(RecoveryCode.Normalize(step.op.login.code))
  {
    CompleteMFAByRecovery(env, before, step, step.op.login.mfaToken, step.op.login.code, step.op.login.token);
  }
}
