/** What one step of any kind does to the step-one tokens and the challenges. */
module PendingSteps {
  import opened Prelude
  import opened State
  import opened System
  import opened Text
  import Logins = LoginRules
  import Frames

  // ---- Step-one tokens ---------------------------------------------------------------

  /** The token a step tries to claim. */
  function Presented(step: Step): Option<string> {
    if !step.op.Sign? then None
    else
      match step.op.login
      case CompleteMFA(mfaToken, _, _) => Some(mfaToken)
      case BeginPasskeyLogin(mfaToken, _) => Some(mfaToken)
      case _ => None
  }

  predicate Claims(before: Db, step: Step) {
    Presented(step).Some? && Logins.Claimable(before, step.now, Presented(step).value)
  }

  /** The step is a sign-in with the right password of an enabled account. */
  predicate ChecksPassword(env: Env, before: Db, step: Step, user: string) {
    && step.op.Sign? && step.op.login.Login?
    && Lower(Trim(step.op.login.email)) in before.accounts.emails
    && before.accounts.emails[Lower(Trim(step.op.login.email))] == user
    && Enabled(before, user)
    && env.verify(before.accounts.users[user].hash, step.op.login.password) == Some(true)
  }

  function Issued(step: Step, user: string): MfaToken {
    MfaToken(user, step.now + 5 * 60_000_000_000, false)
  }

  /** A claim spends its token; a password check may add one, under a value never
      drawn before; nothing else touches a token. */
  ghost predicate TokenStep(env: Env, before: Db, after: Db, step: Step, outcome: Outcome) {
    var was, tokens := before.pending.mfaTokens, after.pending.mfaTokens;
    if Claims(before, step) then
      && tokens == was[Presented(step).value := was[Presented(step).value].(used := true)]
      && !outcome.MfaIssued?
    else if outcome.MfaIssued? then
      && outcome.token !in before.minted && outcome.token in after.minted
      && exists user :: ChecksPassword(env, before, step, user) && tokens == was[outcome.token := Issued(step, user)]
    else tokens == was
  }

  lemma LoginToken(env: Env, before: Db, step: Step)
    requires step.op.Sign? && step.op.login.Login?
    ensures var (after, outcome) := LoginNext(env, before, step.now, step.actor, step.op.login);
            TokenStep(env, before, after, step, outcome)
  {
    var op := step.op.login;
    var address := Lower(Trim(op.email));
    if address in before.accounts.emails && before.accounts.emails[address] in before.accounts.users {
      LoginAsToken(env, before, step, before.accounts.emails[address]);
    }
  }

  lemma LoginAsToken(env: Env, before: Db, step: Step, id: string)
    requires step.op.Sign? && step.op.login.Login? && id in before.accounts.users
    requires Lower(Trim(step.op.login.email)) in before.accounts.emails
    requires before.accounts.emails[Lower(Trim(step.op.login.email))] == id
    ensures var op := step.op.login;
            var (after, outcome) := Logins.LoginAs(env, before, step.now, id, op.password, op.salt, op.token);
            TokenStep(env, before, after, step, outcome)
  {
    var op := step.op.login;
    var (after, outcome) := Logins.LoginAs(env, before, step.now, id, op.password, op.salt, op.token);
    Frames.UpgradedFrame(env, before, id, op.password, op.salt);
    if outcome.MfaIssued? {
      assert ChecksPassword(env, before, step, id);
    }
  }

  lemma CompleteMFAToken(env: Env, before: Db, step: Step, mfaToken: string, code: string, token: string)
    requires Presented(step) == Some(mfaToken)
    ensures var (after, outcome) := Logins.CompleteMFA(env, before, step.now, mfaToken, code, token);
            TokenStep(env, before, after, step, outcome)
  {
    if Logins.Claimable(before, step.now, mfaToken) {
      Frames.VerifyFactorFrame(env, Logins.Claimed(before, mfaToken), step.now,
                               before.pending.mfaTokens[mfaToken].user, code);
    }
  }

  lemma BeginPasskeyToken(env: Env, before: Db, step: Step, mfaToken: string, id: string)
    requires Presented(step) == Some(mfaToken)
    ensures var (after, outcome) := Logins.BeginPasskeyLogin(before, step.now, mfaToken, id);
            TokenStep(env, before, after, step, outcome)
  {
  }

  lemma QuietTokens(env: Env, before: Db, step: Step)
    requires step.op.Sign? && !step.op.login.Login? && Presented(step).None?
    ensures var (after, outcome) := LoginNext(env, before, step.now, step.actor, step.op.login);
            after.pending.mfaTokens == before.pending.mfaTokens && !outcome.MfaIssued?
  {
    if step.op.login.StepUpWithSecret? {
      Frames.VerifyFactorFrame(env, before, step.now, step.actor.user, step.op.login.secret);
    }
  }

  /** Any step, all tokens. */
  lemma AnyTokenStep(env: Env, before: Db, step: Step)
    ensures var (after, outcome) := Next(env, before, step);
            TokenStep(env, before, after, step, outcome)
  {
    match step.op {
      case Admin(op) =>
        Frames.AdminFrame(env, before, step.rules, step.actor, op);
      case Factor(op) =>
        Frames.FactorFrame(env, before, step.now, step.rules, step.actor, op);
      case Sign(op) =>
        match op {
          case Login(_, _, _, _) => LoginToken(env, before, step);
          case CompleteMFA(mfaToken, code, token) => CompleteMFAToken(env, before, step, mfaToken, code, token);
          case BeginPasskeyLogin(mfaToken, id) => BeginPasskeyToken(env, before, step, mfaToken, id);
          case _ => QuietTokens(env, before, step);
        }
    }
  }

  // ---- Challenges --------------------------------------------------------------------

  /** The challenge a step tries to complete, and for what. */
  function Finishing(step: Step): Option<(string, Purpose)> {
    match step.op
    case Sign(CompletePasskeyLogin(challenge, _, _)) => Some((challenge, SignIn))
    case Sign(CompletePasswordlessLogin(challenge, _, _, _)) => Some((challenge, Passwordless))
    case Sign(CompleteStepUpWithPasskey(challenge, _)) => Some((challenge, StepUp))
    case Factor(FinishRegistration(challenge, _, _)) => Some((challenge, Registration))
    case _ => None
  }

  /** A challenge of a signed-in caller is bound to that caller. */
  predicate Bound(purpose: Purpose) {
    purpose == StepUp || purpose == Registration
  }

  /** The step completes the challenge: it is open, for this purpose and, where
      the ceremony belongs to a caller, for this caller. */
  predicate Spends(before: Db, step: Step) {
    && Finishing(step).Some?
    && var (challenge, purpose) := Finishing(step).value;
       && Logins.Open(before, step.now, challenge, purpose)
       && (Bound(purpose) ==> before.pending.challenges[challenge].user == step.actor.user && step.actor.user != "")
       && (purpose == StepUp ==> step.actor.session != "")
  }

  /** The ceremony a step begins: for whom, and for what. The second step of a
      sign-in begins one only by claiming its token. */
  function Beginning(before: Db, step: Step): Option<(string, Purpose)> {
    match step.op
    case Sign(BeginPasskeyLogin(mfaToken, _)) =>
      if Claims(before, step) then Some((before.pending.mfaTokens[mfaToken].user, SignIn)) else None
    case Sign(BeginPasswordlessLogin(_)) => Some(("", Passwordless))
    case Sign(BeginStepUpWithPasskey(_)) => Some((step.actor.user, StepUp))
    case Factor(BeginRegistration(_)) => Some((step.actor.user, Registration))
    case _ => None
  }

  function Opened(step: Step, user: string, purpose: Purpose): Challenge {
    Challenge(user, purpose, step.now + 2 * 60_000_000_000, false)
  }

  /** A finish spends its challenge, a begin adds one under a value never drawn
      before, and nothing else touches a challenge. */
  predicate ChallengeStep(before: Db, after: Db, step: Step, outcome: Outcome) {
    var was, challenges := before.pending.challenges, after.pending.challenges;
    if Spends(before, step) then
      var id := Finishing(step).value.0;
      challenges == was[id := was[id].(used := true)] && !outcome.CeremonyBegun?
    else if outcome.CeremonyBegun? then
      && outcome.id !in before.minted && outcome.id in after.minted
      && Beginning(before, step).Some?
      && challenges == was[outcome.id := Opened(step, Beginning(before, step).value.0, Beginning(before, step).value.1)]
    else challenges == was
  }

  lemma FactorChallenge(env: Env, before: Db, step: Step)
    requires step.op.Factor?
    ensures var (after, outcome) := FactorNext(env, before, step.now, step.rules, step.actor, step.op.factor);
            ChallengeStep(before, after, step, outcome)
  {
  }

  lemma CompletePasskeyChallenge(env: Env, before: Db, step: Step, challenge: string, assertion: Option<string>,
                                 token: string)
    requires step.op == Sign(CompletePasskeyLogin(challenge, assertion, token))
    ensures var (after, outcome) := Logins.CompletePasskeyLogin(env, before, step.now, challenge, assertion, token);
            ChallengeStep(before, after, step, outcome)
  {
  }

  lemma CompletePasswordlessChallenge(env: Env, before: Db, step: Step, challenge: string, handle: string,
                                      assertion: Option<string>, token: string)
    requires step.op == Sign(CompletePasswordlessLogin(challenge, handle, assertion, token))
    ensures var (after, outcome) :=
              Logins.CompletePasswordlessLogin(env, before, step.now, challenge, handle, assertion, token);
            ChallengeStep(before, after, step, outcome)
  {
  }

  lemma CompleteStepUpChallenge(before: Db, step: Step, challenge: string, assertion: Option<string>)
    requires step.op == Sign(CompleteStepUpWithPasskey(challenge, assertion))
    ensures var (after, outcome) :=
              Logins.CompleteStepUpWithPasskey(before, step.now, step.actor, challenge, assertion);
            ChallengeStep(before, after, step, outcome)
  {
  }

  lemma BeginningChallenge(env: Env, before: Db, step: Step)
    requires step.op.Sign?
    requires step.op.login.BeginPasskeyLogin? || step.op.login.BeginPasswordlessLogin?
             || step.op.login.BeginStepUpWithPasskey?
    ensures var (after, outcome) := LoginNext(env, before, step.now, step.actor, step.op.login);
            ChallengeStep(before, after, step, outcome)
  {
  }

  lemma PasswordChallenge(env: Env, before: Db, step: Step)
    requires step.op.Sign? && (step.op.login.Login? || step.op.login.CompleteMFA? || step.op.login.StepUpWithSecret?)
    ensures var (after, outcome) := LoginNext(env, before, step.now, step.actor, step.op.login);
            after.pending.challenges == before.pending.challenges && !outcome.CeremonyBegun?
  {
    match step.op.login {
      case CompleteMFA(mfaToken, code, token) =>
        if Logins.Claimable(before, step.now, mfaToken) {
          Frames.VerifyFactorFrame(env, Logins.Claimed(before, mfaToken), step.now,
                                   before.pending.mfaTokens[mfaToken].user, code);
        }
      case StepUpWithSecret(secret) =>
        Frames.VerifyFactorFrame(env, before, step.now, step.actor.user, secret);
      case _ =>
    }
  }

  lemma SessionChallenge(env: Env, before: Db, step: Step)
    requires step.op.Sign?
    requires step.op.login.AuthenticateSession? || step.op.login.AuthenticateAPIKey? || step.op.login.Logout?
    ensures var (after, outcome) := LoginNext(env, before, step.now, step.actor, step.op.login);
            after.pending.challenges == before.pending.challenges && !outcome.CeremonyBegun?
  {
  }

  /** Any step, all challenges. */
  lemma AnyChallengeStep(env: Env, before: Db, step: Step)
    ensures var (after, outcome) := Next(env, before, step);
            ChallengeStep(before, after, step, outcome)
  {
    match step.op {
      case Admin(op) => Frames.AdminFrame(env, before, step.rules, step.actor, op);
      case Factor(op) => FactorChallenge(env, before, step);
      case Sign(op) =>
        match op {
          case CompletePasskeyLogin(challenge, assertion, token) =>
            CompletePasskeyChallenge(env, before, step, challenge, assertion, token);
          case CompletePasswordlessLogin(challenge, handle, assertion, token) =>
            CompletePasswordlessChallenge(env, before, step, challenge, handle, assertion, token);
          case CompleteStepUpWithPasskey(challenge, assertion) =>
            CompleteStepUpChallenge(before, step, challenge, assertion);
          case BeginPasskeyLogin(_, _) => BeginningChallenge(env, before, step);
          case BeginPasswordlessLogin(_) => BeginningChallenge(env, before, step);
          case BeginStepUpWithPasskey(_) => BeginningChallenge(env, before, step);
          case Login(_, _, _, _) => PasswordChallenge(env, before, step);
          case CompleteMFA(_, _, _) => PasswordChallenge(env, before, step);
          case StepUpWithSecret(_) => PasswordChallenge(env, before, step);
          case _ => SessionChallenge(env, before, step);
        }
    }
  }
}
