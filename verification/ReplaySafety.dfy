/** No TOTP step is accepted twice (mfa.go:181-262, 424-481; totp.go:98-159;
    section 5.2 of RFC 6238). */
module ReplaySafety {
  import opened Prelude
  import opened Roles
  import opened State
  import opened System
  import opened Text
  import opened Totp
  import Logins = LoginRules
  import Factors = FactorRules
  import RecoveryCode
  import Frames

  /** The TOTP step a verification of this code accepts, if it accepts one. */
  function AcceptedBy(env: Env, db: Db, now: Time, user: string, code: string): Option<int> {
    if user !in db.factors.enrollments then None
    else
      match Logins.TotpVerdict(env, db.factors.enrollments[user], now, code)
      case Accepted(step) => Some(step)
      case _ => None
  }

  /** VerifyFactor takes this code to the authenticator. */
  predicate AsksTotp(db: Db, user: string, code: string) {
    HasConfirmedTotp(db, user) && RecoveryCode.LooksLikeTotp(code)
  }

  /** The TOTP step an operation accepts for an account: by confirming its
      enrollment, completing its sign-in or stepping up its session. */
  function Accepts(env: Env, before: Db, step: Step, user: string): Option<int> {
    match step.op
    case Factor(ConfirmEnrollment(code, _)) =>
      if step.actor.user == user && user != "" && !HasConfirmedTotp(before, user)
      then AcceptedBy(env, before, step.now, user, code) else None
    case Sign(CompleteMFA(mfaToken, code, _)) =>
      if Logins.Claimable(before, step.now, mfaToken) && before.pending.mfaTokens[mfaToken].user == user
         && Enabled(before, user) && AsksTotp(before, user, code)
      then AcceptedBy(env, before, step.now, user, code) else None
    case Sign(StepUpWithSecret(code)) =>
      if Logins.HasSession(step.actor) && step.actor.user == user && AsksTotp(before, user, code)
      then AcceptedBy(env, before, step.now, user, code) else None
    case _ => None
  }

  /** The account starts enrolling afresh; the code refuses this to a confirmed
      factor. */
  predicate Reenrolls(step: Step, outcome: Outcome, user: string) {
    step.op.Factor? && step.op.factor.BeginEnrollment? && step.actor.user == user && outcome == Done
  }

  /** What a step does to an enrollment that outlives it: the secret stays, an
      accepted step lies beyond the last one and near the present, and becomes the
      last one; without one nothing moves. */
  ghost predicate Advances(was: Enrollment, e: Enrollment, accepted: Option<int>, now: Time) {
    && e.secret == was.secret
    && match accepted
       case Some(step) =>
         && e.confirmed && e.lastUsedStep == step
         && was.lastUsedStep < step && TotpStep(now) - 1 <= step <= TotpStep(now) + 1
       case None => e == was
  }

  ghost predicate EnrollmentStep(env: Env, before: Db, after: Db, step: Step, outcome: Outcome, user: string) {
    user in before.factors.enrollments && user in after.factors.enrollments ==>
      if Reenrolls(step, outcome, user) then !before.factors.enrollments[user].confirmed
      else Advances(before.factors.enrollments[user], after.factors.enrollments[user],
                    Accepts(env, before, step, user), step.now)
  }

  lemma AcceptedIsNew(env: Env, db: Db, now: Time, user: string, code: string)
    requires user in db.factors.enrollments
    ensures var e := db.factors.enrollments[user];
            match AcceptedBy(env, db, now, user, code)
            case Some(step) =>
              e.lastUsedStep < step && TotpStep(now) - 1 <= step <= TotpStep(now) + 1
            case None => true
  {
    var e := db.factors.enrollments[user];
    AcceptedIsFreshAndNear(env.hotp, e.secret, code, now, e.lastUsedStep, SKEW);
  }

  lemma VerifyAdvances(env: Env, db: Db, now: Time, target: string, code: string, user: string)
    requires user in db.factors.enrollments
    ensures var after := Logins.VerifyFactor(env, db, now, target, code).0;
            && user in after.factors.enrollments
            && Advances(db.factors.enrollments[user], after.factors.enrollments[user],
                        if target == user && AsksTotp(db, user, code) then AcceptedBy(env, db, now, user, code)
                        else None, now)
  {
    AcceptedIsNew(env, db, now, user, code);
  }

  lemma CompleteMFAAdvances(env: Env, before: Db, step: Step, mfaToken: string, code: string, token: string,
                            user: string)
    requires step.op == Sign(CompleteMFA(mfaToken, code, token))
    ensures var (after, outcome) := Logins.CompleteMFA(env, before, step.now, mfaToken, code, token);
            EnrollmentStep(env, before, after, step, outcome, user)
  {
    if Logins.Claimable(before, step.now, mfaToken) && user in before.factors.enrollments {
      VerifyAdvances(env, Logins.Claimed(before, mfaToken), step.now, before.pending.mfaTokens[mfaToken].user, code,
                     user);
    }
  }

  lemma StepUpAdvances(env: Env, before: Db, step: Step, code: string, user: string)
    requires step.op == Sign(StepUpWithSecret(code))
    ensures var (after, outcome) := Logins.StepUpWithSecret(env, before, step.now, step.actor, code);
            EnrollmentStep(env, before, after, step, outcome, user)
  {
    if user in before.factors.enrollments {
      VerifyAdvances(env, before, step.now, step.actor.user, code, user);
    }
  }

  lemma LoginAdvances(env: Env, before: Db, step: Step, user: string)
    requires step.op.Sign?
    ensures var (after, outcome) := LoginNext(env, before, step.now, step.actor, step.op.login);
            EnrollmentStep(env, before, after, step, outcome, user)
  {
    match step.op.login {
      case CompleteMFA(mfaToken, code, token) => CompleteMFAAdvances(env, before, step, mfaToken, code, token, user);
      case StepUpWithSecret(code) => StepUpAdvances(env, before, step, code, user);
      case Login(email, password, salt, token) =>
        var address := Lower(Trim(email));
        if address in before.accounts.emails && before.accounts.emails[address] in before.accounts.users {
          Frames.LoginAsFrame(env, before, step.now, before.accounts.emails[address], password, salt, token);
        }
      case _ => Frames.QuietFrame(env, before, step.now, step.actor, step.op.login);
    }
  }

  lemma ConfirmAdvances(env: Env, before: Db, step: Step, code: string, codes: set<string>, user: string)
    requires step.op == Factor(ConfirmEnrollment(code, codes))
    ensures var (after, outcome) := Factors.ConfirmEnrollment(env, before, step.now, step.actor, code, codes);
            EnrollmentStep(env, before, after, step, outcome, user)
  {
    if user in before.factors.enrollments {
      AcceptedIsNew(env, before, step.now, user, code);
    }
  }

  lemma FactorAdvances(env: Env, before: Db, step: Step, user: string)
    requires step.op.Factor?
    ensures var (after, outcome) := FactorNext(env, before, step.now, step.rules, step.actor, step.op.factor);
            EnrollmentStep(env, before, after, step, outcome, user)
  {
    if step.op.factor.ConfirmEnrollment? {
      ConfirmAdvances(env, before, step, step.op.factor.code, step.op.factor.codes, user);
    }
  }

  lemma AnyAdvances(env: Env, before: Db, step: Step, user: string)
    ensures var (after, outcome) := Next(env, before, step);
            EnrollmentStep(env, before, after, step, outcome, user)
  {
    match step.op {
      case Admin(op) => Frames.AdminFrame(env, before, step.rules, step.actor, op);
      case Sign(op) => LoginAdvances(env, before, step, user);
      case Factor(op) => FactorAdvances(env, before, step, user);
    }
  }

  /** The code a step presents for an account, where it takes a TOTP code. */
  ghost predicate PresentsCode(before: Db, step: Step, user: string) {
    match step.op
    case Factor(ConfirmEnrollment(_, _)) => step.actor.user == user
    case Sign(CompleteMFA(mfaToken, code, _)) =>
      && mfaToken in before.pending.mfaTokens && before.pending.mfaTokens[mfaToken].user == user
      && RecoveryCode.LooksLikeTotp(code)
    case Sign(StepUpWithSecret(code)) =>
      step.actor.user == user && HasConfirmedTotp(before, user) && RecoveryCode.LooksLikeTotp(code)
    case _ => false
  }

  lemma CompleteMFAAccepts(env: Env, before: Db, step: Step, mfaToken: string, code: string, token: string)
    requires step.op == Sign(CompleteMFA(mfaToken, code, token)) && mfaToken in before.pending.mfaTokens
    requires RecoveryCode.LooksLikeTotp(code)
    requires Logins.CompleteMFA(env, before, step.now, mfaToken, code, token).1.SessionIssued?
    ensures Accepts(env, before, step, before.pending.mfaTokens[mfaToken].user).Some?
  {
    assert HasConfirmedTotp(before, before.pending.mfaTokens[mfaToken].user);
  }

  /** An operation that takes a TOTP code succeeds only by accepting a step. */
  lemma SuccessIsAcceptance(env: Env, before: Db, step: Step, user: string)
    requires PresentsCode(before, step, user) && !Next(env, before, step).1.Refused?
    ensures Accepts(env, before, step, user).Some?
  {
    match step.op {
      case Sign(CompleteMFA(mfaToken, code, token)) => CompleteMFAAccepts(env, before, step, mfaToken, code, token);
      case _ =>
    }
  }

  // ---- Runs ----------------------------------------------------------------------------

  /** Between states a and b the account keeps one enrollment: it is there all the
      time and no step starts it afresh. */
  ghost predicate Kept(run: Run, a: nat, b: nat, user: string) {
    && run.Shaped() && a <= b < |run.states|
    && (forall k :: a <= k <= b ==> user in run.states[k].factors.enrollments)
    && (forall k :: a <= k < b ==> !Reenrolls(run.steps[k], run.outcomes[k], user))
  }

  ghost predicate StepAdvances(run: Run, k: nat, user: string)
    requires run.Shaped() && k < |run.steps|
  {
    EnrollmentStep(run.env, run.states[k], run.states[k + 1], run.steps[k], run.outcomes[k], user)
  }

  lemma RunAdvances(run: Run, k: nat, user: string)
    requires run.Valid() && k < |run.steps|
    ensures StepAdvances(run, k, user)
  {
    AnyAdvances(run.env, run.states[k], run.steps[k], user);
    assert run.Takes(k);
  }

  /** A kept enrollment, with what every step of a run does to it. */
  ghost predicate Advancing(run: Run, a: nat, b: nat, user: string) {
    Kept(run, a, b, user) && forall k :: a <= k < b ==> StepAdvances(run, k, user)
  }

  lemma KeptIsAdvancing(run: Run, a: nat, b: nat, user: string)
    requires run.Valid() && Kept(run, a, b, user)
    ensures Advancing(run, a, b, user)
  {
    forall k | a <= k < b
      ensures StepAdvances(run, k, user)
    {
      RunAdvances(run, k, user);
    }
  }

  /** A confirmed enrollment is kept, and stays confirmed, for as long as it is
      there: starting afresh is refused. */
  lemma {:induction false} ConfirmedIsKept(run: Run, a: nat, b: nat, user: string)
    requires run.Valid() && a <= b < |run.states|
    requires forall k :: a <= k <= b ==> user in run.states[k].factors.enrollments
    requires run.states[a].factors.enrollments[user].confirmed
    ensures Kept(run, a, b, user)
    ensures run.states[b].factors.enrollments[user].confirmed
  {
    if a < b {
      ConfirmedIsKept(run, a, b - 1, user);
      RunAdvances(run, b - 1, user);
    }
  }

  function AcceptsAt(run: Run, k: nat, user: string): Option<int>
    requires run.Shaped() && k < |run.steps|
  {
    Accepts(run.env, run.states[k], run.steps[k], user)
  }

  /** The secret is the same, and the replay counter no further back. */
  ghost predicate Climbs(was: Enrollment, e: Enrollment) {
    e.secret == was.secret && was.lastUsedStep <= e.lastUsedStep
  }

  lemma {:induction false} AdvancingClimbs(run: Run, a: nat, b: nat, user: string)
    requires Advancing(run, a, b, user)
    ensures Climbs(run.states[a].factors.enrollments[user], run.states[b].factors.enrollments[user])
  {
    if a < b {
      AdvancingClimbs(run, a, b - 1, user);
      assert StepAdvances(run, b - 1, user);
    }
  }

  /** The replay counter never goes back, and the secret never changes. */
  lemma CounterClimbs(run: Run, a: nat, b: nat, user: string)
    requires run.Valid() && Kept(run, a, b, user)
    ensures run.states[b].factors.enrollments[user].secret == run.states[a].factors.enrollments[user].secret
    ensures run.states[a].factors.enrollments[user].lastUsedStep
         <= run.states[b].factors.enrollments[user].lastUsedStep
  {
    KeptIsAdvancing(run, a, b, user);
    AdvancingClimbs(run, a, b, user);
  }

  lemma AdvancingIncreases(run: Run, i: nat, j: nat, user: string)
    requires i < j && Advancing(run, i, j + 1, user)
    requires AcceptsAt(run, i, user).Some? && AcceptsAt(run, j, user).Some?
    ensures AcceptsAt(run, i, user).value < AcceptsAt(run, j, user).value
  {
    assert StepAdvances(run, i, user) && StepAdvances(run, j, user);
    AdvancingClimbs(run, i + 1, j, user);
  }

  /** Replay safety: while an enrollment is kept, the TOTP steps accepted for it
      strictly increase, so none is accepted twice. */
  lemma AcceptedStepsIncrease(run: Run, i: nat, j: nat, user: string)
    requires run.Valid() && i < j < |run.steps| && Kept(run, i, j + 1, user)
    requires AcceptsAt(run, i, user).Some? && AcceptsAt(run, j, user).Some?
    ensures AcceptsAt(run, i, user).value < AcceptsAt(run, j, user).value
  {
    KeptIsAdvancing(run, i, j + 1, user);
    AdvancingIncreases(run, i, j, user);
  }

  /** How many codes steps a to b - 1 accept for the account. */
  function AcceptedCount(run: Run, a: nat, b: nat, user: string): nat
    requires run.Shaped() && a <= b <= |run.steps|
  {
    if a == b then 0
    else AcceptedCount(run, a, b - 1, user) + if AcceptsAt(run, b - 1, user).Some? then 1 else 0
  }

  predicate StepWithin(run: Run, k: nat, lo: int, hi: int)
    requires run.Shaped() && k < |run.steps|
  {
    lo <= TotpStep(run.steps[k].now) <= hi
  }

  lemma {:induction false} CountIsBehindTheCounter(run: Run, a: nat, b: nat, user: string, lo: int, hi: int)
    requires Advancing(run, a, b, user)
    requires forall k :: a <= k < b ==> StepWithin(run, k, lo, hi)
    ensures AcceptedCount(run, a, b, user) == 0
         || lo - 2 + AcceptedCount(run, a, b, user) <= run.states[b].factors.enrollments[user].lastUsedStep <= hi + 1
  {
    if a < b {
      CountIsBehindTheCounter(run, a, b - 1, user, lo, hi);
      assert StepAdvances(run, b - 1, user) && StepWithin(run, b - 1, lo, hi);
    }
  }

  /** Between two instants an account accepts at most one code a step, and one
      step of clock skew on either side. */
  lemma AcceptedCodesAreBounded(run: Run, a: nat, b: nat, user: string, t1: Time, t2: Time)
    requires run.Valid() && Kept(run, a, b, user) && t1 <= t2
    requires forall k :: a <= k < b ==> t1 <= run.steps[k].now <= t2
    ensures AcceptedCount(run, a, b, user) <= TotpStep(t2) - TotpStep(t1) + 3
  {
    forall k | a <= k < b
      ensures StepWithin(run, k, TotpStep(t1), TotpStep(t2))
    {
      TotpStepMonotone(t1, run.steps[k].now);
      TotpStepMonotone(run.steps[k].now, t2);
    }
    KeptIsAdvancing(run, a, b, user);
    CountIsBehindTheCounter(run, a, b, user, TotpStep(t1), TotpStep(t2));
    TotpStepMonotone(t1, t2);
  }
}
