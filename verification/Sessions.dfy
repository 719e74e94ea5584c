/** What one step of any kind does to one session. */
module Sessions {
  import opened Prelude
  import opened Roles
  import opened State
  import opened System
  import opened Text
  import Logins = LoginRules
  import opened Minted
  import Frames

  /** The step authenticates a request with this token. */
  predicate Touches(step: Step, outcome: Outcome, t: string) {
    step.op == Sign(AuthenticateSession(t)) && outcome.Resolved?
  }

  /** The step re-verifies the caller on this session. */
  predicate Stamps(step: Step, outcome: Outcome, t: string) {
    && step.op.Sign? && (step.op.login.StepUpWithSecret? || step.op.login.CompleteStepUpWithPasskey?)
    && step.actor.session == t && outcome == Done
  }

  /** A session that was there before: it keeps its account and its ceiling, a
      revocation is not undone, the idle window moves only when a live session is
      used, and the re-verification mark only by a completed step-up. */
  ghost predicate Carried(env: Env, before: Db, step: Step, outcome: Outcome, t: string, s: Session)
    requires t in before.sessions
  {
    var was := before.sessions[t];
    && s.user == was.user
    && s.absoluteExpiresAt == was.absoluteExpiresAt
    && (was.revoked ==> s.revoked)
    && (if Touches(step, outcome, t)
        then Live(before, step.now, t)
             && s.expiresAt == Logins.Touched(env, step.now, ProfileOf(before, was.user), was).expiresAt
        else s.expiresAt == was.expiresAt)
    && (s.steppedUpAt == was.steppedUpAt || (s.steppedUpAt == Some(step.now) && Stamps(step, outcome, t)))
  }

  /** A new session: its token was never drawn before, and the account it was
      issued for was enabled. */
  ghost predicate Fresh(env: Env, before: Db, step: Step, outcome: Outcome, t: string, s: Session) {
    && t !in before.minted
    && outcome == SessionIssued(t)
    && Enabled(before, s.user)
    && s == Logins.NewSession(env, step.now, ProfileOf(before, s.user))
  }

  ghost predicate SessionStep(env: Env, before: Db, after: Db, step: Step, outcome: Outcome, t: string) {
    t in after.sessions ==>
      if t in before.sessions then Carried(env, before, step, outcome, t, after.sessions[t])
      else Fresh(env, before, step, outcome, t, after.sessions[t])
  }

  // ---- Every operation ---------------------------------------------------------------

  /** An account operation leaves a session, revokes it or removes it. */
  lemma AdminSessions(env: Env, before: Db, rules: Rules, actor: Identity, op: AdminOp, t: string)
    ensures var after := AdminNext(env, before, rules, actor, op).0;
            t in after.sessions ==>
              t in before.sessions
              && (after.sessions[t] == before.sessions[t]
                  || after.sessions[t] == before.sessions[t].(revoked := true))
  {
  }

  lemma AdminStep(env: Env, before: Db, step: Step, t: string)
    requires step.op.Admin?
    ensures var (after, outcome) := AdminNext(env, before, step.rules, step.actor, step.op.admin);
            SessionStep(env, before, after, step, outcome, t)
  {
    AdminSessions(env, before, step.rules, step.actor, step.op.admin, t);
  }

  /** Issuing, from a state that has the sessions and accounts of `before`. */
  lemma IssuingStep(env: Env, before: Db, db: Db, step: Step, id: string, token: string, t: string)
    requires Tidy(before) && db.sessions == before.sessions && db.minted == before.minted
    requires Frames.SameAccounts(before.accounts, db.accounts) && Enabled(before, id)
    requires step.op.Sign? && !step.op.login.AuthenticateSession?
    ensures var (after, outcome) := Logins.IssueSession(env, db, step.now, id, token);
            SessionStep(env, before, after, step, outcome, t)
  {
    assert ProfileOf(db, id) == ProfileOf(before, id);
  }

  lemma LoginAsStep(env: Env, before: Db, step: Step, id: string, password: string, salt: Salt, token: string,
                    t: string)
    requires Tidy(before) && id in before.accounts.users && step.op.Sign? && !step.op.login.AuthenticateSession?
    ensures var (after, outcome) := Logins.LoginAs(env, before, step.now, id, password, salt, token);
            SessionStep(env, before, after, step, outcome, t)
  {
    if Enabled(before, id) {
      var upgraded := Logins.Upgraded(env, before, id, password, salt);
      Frames.UpgradedFrame(env, before, id, password, salt);
      IssuingStep(env, before, upgraded, step, id, token, t);
    }
  }

  lemma CompleteMFAStep(env: Env, before: Db, step: Step, mfaToken: string, code: string, token: string, t: string)
    requires Tidy(before) && step.op.Sign? && !step.op.login.AuthenticateSession?
    ensures var (after, outcome) := Logins.CompleteMFA(env, before, step.now, mfaToken, code, token);
            SessionStep(env, before, after, step, outcome, t)
  {
    if Logins.Claimable(before, step.now, mfaToken) {
      var id := before.pending.mfaTokens[mfaToken].user;
      var claimed := Logins.Claimed(before, mfaToken);
      if Enabled(claimed, id) {
        Frames.VerifyFactorFrame(env, claimed, step.now, id, code);
        IssuingStep(env, before, Logins.VerifyFactor(env, claimed, step.now, id, code).0, step, id, token, t);
      }
    }
  }

  lemma CompletePasskeyStep(env: Env, before: Db, step: Step, challenge: string, assertion: Option<string>,
                            token: string, t: string)
    requires Tidy(before) && step.op.Sign? && !step.op.login.AuthenticateSession?
    ensures var (after, outcome) :=
              Logins.CompletePasskeyLogin(env, before, step.now, challenge, assertion, token);
            SessionStep(env, before, after, step, outcome, t)
  {
    if Logins.Open(before, step.now, challenge, SignIn) && Enabled(before, before.pending.challenges[challenge].user) {
      IssuingStep(env, before, Logins.Spent(before, challenge), step, before.pending.challenges[challenge].user,
                  token, t);
    }
  }

  lemma CompletePasswordlessStep(env: Env, before: Db, step: Step, challenge: string, handle: string,
                                 assertion: Option<string>, token: string, t: string)
    requires Tidy(before) && step.op.Sign? && !step.op.login.AuthenticateSession?
    ensures var (after, outcome) :=
              Logins.CompletePasswordlessLogin(env, before, step.now, challenge, handle, assertion, token);
            SessionStep(env, before, after, step, outcome, t)
  {
    if Logins.Open(before, step.now, challenge, Passwordless) && Enabled(before, handle) {
      IssuingStep(env, before, Logins.Spent(before, challenge), step, handle, token, t);
    }
  }

  /** Operations that issue nothing: using, ending and re-verifying a session. */
  lemma UsingStep(env: Env, before: Db, step: Step, t: string)
    requires step.op.Sign? && (step.op.login.AuthenticateSession? || step.op.login.Logout?)
    ensures var (after, outcome) := LoginNext(env, before, step.now, step.actor, step.op.login);
            SessionStep(env, before, after, step, outcome, t)
  {
  }

  lemma StepUpStep(env: Env, before: Db, step: Step, t: string)
    requires step.op.Sign? && step.op.login.StepUpWithSecret?
    ensures var (after, outcome) := LoginNext(env, before, step.now, step.actor, step.op.login);
            SessionStep(env, before, after, step, outcome, t)
  {
    Frames.VerifyFactorFrame(env, before, step.now, step.actor.user, step.op.login.secret);
  }

  lemma PasskeyStepUpStep(env: Env, before: Db, step: Step, t: string)
    requires step.op.Sign? && step.op.login.CompleteStepUpWithPasskey?
    ensures var (after, outcome) := LoginNext(env, before, step.now, step.actor, step.op.login);
            SessionStep(env, before, after, step, outcome, t)
  {
  }

  lemma BeginningStep(env: Env, before: Db, step: Step, t: string)
    requires step.op.Sign?
    requires step.op.login.BeginPasskeyLogin? || step.op.login.BeginPasswordlessLogin?
             || step.op.login.BeginStepUpWithPasskey? || step.op.login.AuthenticateAPIKey?
    ensures var (after, outcome) := LoginNext(env, before, step.now, step.actor, step.op.login);
            SessionStep(env, before, after, step, outcome, t)
  {
  }

  lemma LoginStep(env: Env, before: Db, step: Step, t: string)
    requires Tidy(before) && step.op.Sign?
    ensures var (after, outcome) := LoginNext(env, before, step.now, step.actor, step.op.login);
            SessionStep(env, before, after, step, outcome, t)
  {
    match step.op.login {
      case Login(email, password, salt, token) =>
        var address := Lower(Trim(email));
        if address in before.accounts.emails && before.accounts.emails[address] in before.accounts.users {
          LoginAsStep(env, before, step, before.accounts.emails[address], password, salt, token, t);
        }
      case CompleteMFA(mfaToken, code, token) => CompleteMFAStep(env, before, step, mfaToken, code, token, t);
      case CompletePasskeyLogin(challenge, assertion, token) =>
        CompletePasskeyStep(env, before, step, challenge, assertion, token, t);
      case CompletePasswordlessLogin(challenge, handle, assertion, token) =>
        CompletePasswordlessStep(env, before, step, challenge, handle, assertion, token, t);
      case AuthenticateSession(_) => UsingStep(env, before, step, t);
      case Logout(_) => UsingStep(env, before, step, t);
      case StepUpWithSecret(_) => StepUpStep(env, before, step, t);
      case CompleteStepUpWithPasskey(_, _) => PasskeyStepUpStep(env, before, step, t);
      case _ => BeginningStep(env, before, step, t);
    }
  }

  /** Any step, any session. */
  lemma AnyStep(env: Env, before: Db, step: Step, t: string)
    requires Tidy(before)
    ensures var (after, outcome) := Next(env, before, step);
            SessionStep(env, before, after, step, outcome, t)
  {
    match step.op {
      case Admin(op) => AdminStep(env, before, step, t);
      case Sign(op) => LoginStep(env, before, step, t);
      case Factor(op) => Frames.FactorFrame(env, before, step.now, step.rules, step.actor, op);
    }
  }

  /** The same, over a run. */
  lemma RunStep(run: Run, i: nat, t: string)
    requires run.Valid() && i < |run.steps| && Tidy(run.states[0])
    ensures SessionStep(run.env, run.states[i], run.states[i + 1], run.steps[i], run.outcomes[i], t)
  {
    RunGrows(run, 0, i);
    AnyStep(run.env, run.states[i], run.steps[i], t);
    assert run.Takes(i);
  }
}
