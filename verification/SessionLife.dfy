/** Exactly when a session is live, over whole runs: from its issue until one of its
    two windows closes or something ends it (authenticator.go:276-305, 578-702;
    admin.go:375-401, 471-489, 574-691; store.go:73-107). */
module SessionLife {
  import opened Prelude
  import opened Roles
  import opened State
  import opened System
  import opened Text
  import opened Minted
  import opened Sessions
  import opened SessionDeath
  import Logins = LoginRules
  import Frames

  /** The step ends the session: a logout with its token, or the end of every
      session of its account. */
  predicate Ends(step: Step, outcome: Outcome, t: string, user: string) {
    step.op == Sign(Logout(t)) || EndsSessionsOf(step, outcome, user)
  }

  /** There, unrevoked, and of an enabled account. */
  ghost predicate Standing(db: Db, t: string, user: string) {
    && t in db.sessions && !db.sessions[t].revoked && db.sessions[t].user == user
    && Enabled(db, user)
  }

  // ---- What does not end a session leaves it standing ------------------------------------

  lemma RemovalLeaves(env: Env, db: Db, rules: Rules, actor: Identity, op: AdminOp, t: string, user: string)
    requires op.DisableUser? || op.EnableUser? || op.DeleteUser? || op.SetRole?
    requires Standing(db, t, user)
    requires AdminNext(env, db, rules, actor, op).1 == Done ==> op.SetRole? || op.EnableUser? || op.id != user
    ensures Standing(AdminNext(env, db, rules, actor, op).0, t, user)
  {
  }

  lemma PasswordLeaves(env: Env, db: Db, rules: Rules, actor: Identity, op: AdminOp, t: string, user: string)
    requires op.ChangePassword? || op.ResetPassword? || op.SetInitialPassword?
    requires Standing(db, t, user)
    requires AdminNext(env, db, rules, actor, op).1 == Done && op.ChangePassword? ==> actor.user != user
    requires AdminNext(env, db, rules, actor, op).1 == Done && op.ResetPassword? ==> op.id != user
    ensures Standing(AdminNext(env, db, rules, actor, op).0, t, user)
  {
  }

  lemma RestLeaves(env: Env, db: Db, rules: Rules, actor: Identity, op: AdminOp, t: string, user: string)
    requires op.CreateUser? || op.CreateInvitedUser? || op.MintAPIKey? || op.RevokeAPIKey? || op.SetPasswordPolicy?
    requires Standing(db, t, user) && Tidy(db)
    ensures Standing(AdminNext(env, db, rules, actor, op).0, t, user)
  {
  }

  lemma AdminLeaves(env: Env, db: Db, step: Step, t: string, user: string)
    requires step.op.Admin? && Standing(db, t, user) && Tidy(db)
    requires !EndsSessionsOf(step, Next(env, db, step).1, user)
    ensures Standing(Next(env, db, step).0, t, user)
  {
    var op := step.op.admin;
    if op.DisableUser? || op.EnableUser? || op.DeleteUser? || op.SetRole? {
      RemovalLeaves(env, db, step.rules, step.actor, op, t, user);
    } else if op.ChangePassword? || op.ResetPassword? || op.SetInitialPassword? {
      PasswordLeaves(env, db, step.rules, step.actor, op, t, user);
    } else {
      RestLeaves(env, db, step.rules, step.actor, op, t, user);
    }
  }

  /** The session is as it was, but for its idle window and its mark. */
  ghost predicate Stays(before: Db, after: Db, t: string) {
    t in before.sessions ==> t in after.sessions && after.sessions[t].revoked == before.sessions[t].revoked
  }

  lemma IssuingStays(env: Env, db: Db, now: Time, id: string, token: string, t: string)
    requires id in db.accounts.users && Tidy(db)
    ensures Stays(db, Logins.IssueSession(env, db, now, id, token).0, t)
  {
  }

  lemma LoginAsStays(env: Env, db: Db, now: Time, id: string, password: string, salt: Salt, token: string, t: string)
    requires id in db.accounts.users && Tidy(db)
    ensures Stays(db, Logins.LoginAs(env, db, now, id, password, salt, token).0, t)
  {
    var upgraded := Logins.Upgraded(env, db, id, password, salt);
    Frames.UpgradedFrame(env, db, id, password, salt);
    IssuingStays(env, upgraded, now, id, token, t);
  }

  lemma CompleteMFAStays(env: Env, db: Db, now: Time, mfaToken: string, code: string, token: string, t: string)
    requires Tidy(db)
    ensures Stays(db, Logins.CompleteMFA(env, db, now, mfaToken, code, token).0, t)
  {
    if Logins.Claimable(db, now, mfaToken) {
      var claimed, id := Logins.Claimed(db, mfaToken), db.pending.mfaTokens[mfaToken].user;
      Frames.VerifyFactorFrame(env, claimed, now, id, code);
      if Enabled(claimed, id) {
        IssuingStays(env, Logins.VerifyFactor(env, claimed, now, id, code).0, now, id, token, t);
      }
    }
  }

  lemma CompletionStays(env: Env, db: Db, now: Time, actor: Identity, op: LoginOp, t: string)
    requires op.CompletePasskeyLogin? || op.CompletePasswordlessLogin? || op.CompleteStepUpWithPasskey?
    requires Tidy(db)
    ensures Stays(db, LoginNext(env, db, now, actor, op).0, t)
  {
  }

  lemma StepUpStays(env: Env, db: Db, now: Time, actor: Identity, secret: string, t: string)
    ensures Stays(db, Logins.StepUpWithSecret(env, db, now, actor, secret).0, t)
  {
    Frames.VerifyFactorFrame(env, db, now, actor.user, secret);
  }

  lemma OtherStays(env: Env, db: Db, now: Time, actor: Identity, op: LoginOp, t: string)
    requires op.BeginPasskeyLogin? || op.BeginPasswordlessLogin? || op.BeginStepUpWithPasskey?
             || op.AuthenticateSession? || op.AuthenticateAPIKey? || (op.Logout? && op.token != t)
    ensures Stays(db, LoginNext(env, db, now, actor, op).0, t)
  {
  }

  lemma LoginStays(env: Env, db: Db, now: Time, actor: Identity, op: LoginOp, t: string)
    requires Tidy(db) && op != Logout(t)
    ensures Stays(db, LoginNext(env, db, now, actor, op).0, t)
  {
    match op {
      case Login(email, password, salt, token) =>
        var address := Lower(Trim(email));
        if address in db.accounts.emails && db.accounts.emails[address] in db.accounts.users {
          LoginAsStays(env, db, now, db.accounts.emails[address], password, salt, token, t);
        }
      case CompleteMFA(mfaToken, code, token) => CompleteMFAStays(env, db, now, mfaToken, code, token, t);
      case StepUpWithSecret(secret) => StepUpStays(env, db, now, actor, secret, t);
      case CompletePasskeyLogin(_, _, _) => CompletionStays(env, db, now, actor, op, t);
      case CompletePasswordlessLogin(_, _, _, _) => CompletionStays(env, db, now, actor, op, t);
      case CompleteStepUpWithPasskey(_, _) => CompletionStays(env, db, now, actor, op, t);
      case _ => OtherStays(env, db, now, actor, op, t);
    }
  }

  lemma StepLeaves(env: Env, db: Db, step: Step, t: string, user: string)
    requires Tidy(db) && Standing(db, t, user) && !Ends(step, Next(env, db, step).1, t, user)
    ensures Standing(Next(env, db, step).0, t, user)
  {
    match step.op {
      case Admin(op) => AdminLeaves(env, db, step, t, user);
      case Factor(op) => Frames.FactorFrame(env, db, step.now, step.rules, step.actor, op);
      case Sign(op) =>
        LoginStays(env, db, step.now, step.actor, op, t);
        Frames.LoginFrame(env, db, step.now, step.actor, op);
        AnyStep(env, db, step, t);
    }
  }

  // ---- Every session reported as issued is there -----------------------------------------

  /** If a session is reported, it is new and there. */
  ghost predicate Opens(before: Db, after: Db, outcome: Outcome) {
    outcome.SessionIssued? ==> outcome.token !in before.minted && outcome.token in after.sessions
  }

  lemma LoginAsOpens(env: Env, db: Db, now: Time, id: string, password: string, salt: Salt, token: string)
    requires id in db.accounts.users
    ensures var (after, outcome) := Logins.LoginAs(env, db, now, id, password, salt, token);
            Opens(db, after, outcome)
  {
    Frames.UpgradedFrame(env, db, id, password, salt);
  }

  lemma CompleteMFAOpens(env: Env, db: Db, now: Time, mfaToken: string, code: string, token: string)
    ensures var (after, outcome) := Logins.CompleteMFA(env, db, now, mfaToken, code, token);
            Opens(db, after, outcome)
  {
    if Logins.Claimable(db, now, mfaToken) {
      Frames.VerifyFactorFrame(env, Logins.Claimed(db, mfaToken), now, db.pending.mfaTokens[mfaToken].user, code);
    }
  }

  lemma CompletionOpens(env: Env, db: Db, now: Time, actor: Identity, op: LoginOp)
    requires Frames.Quiet(op)
    ensures Opens(db, LoginNext(env, db, now, actor, op).0, LoginNext(env, db, now, actor, op).1)
  {
  }

  lemma StepOpens(env: Env, db: Db, step: Step)
    ensures Opens(db, Next(env, db, step).0, Next(env, db, step).1)
  {
    match step.op {
      case Admin(op) => AdminIssuesNothing(env, db, step.rules, step.actor, op);
      case Factor(op) =>
      case Sign(op) =>
        match op {
          case Login(email, password, salt, token) =>
            var address := Lower(Trim(email));
            if address in db.accounts.emails && db.accounts.emails[address] in db.accounts.users {
              LoginAsOpens(env, db, step.now, db.accounts.emails[address], password, salt, token);
            }
          case CompleteMFA(mfaToken, code, token) => CompleteMFAOpens(env, db, step.now, mfaToken, code, token);
          case StepUpWithSecret(_) =>
          case _ => CompletionOpens(env, db, step.now, step.actor, op);
        }
    }
  }

  lemma IssuerIsASignIn(env: Env, db: Db, step: Step)
    requires Next(env, db, step).1.SessionIssued?
    ensures step.op.Sign?
  {
    if step.op.Admin? {
      AdminIssuesNothing(env, db, step.rules, step.actor, step.op.admin);
    }
  }

  lemma AdminIssuesNothing(env: Env, db: Db, rules: Rules, actor: Identity, op: AdminOp)
    ensures !AdminNext(env, db, rules, actor, op).1.SessionIssued?
  {
  }

  // ---- Over runs ---------------------------------------------------------------------------

  ghost predicate EndsAt(run: Run, k: nat, t: string, user: string)
    requires run.Shaped() && k < |run.steps|
  {
    Ends(run.steps[k], run.outcomes[k], t, user)
  }

  /** Nothing ends the session after step b and before state n. */
  ghost predicate Unended(run: Run, b: nat, n: nat, t: string, user: string)
    requires run.Shaped() && n < |run.states|
  {
    forall k :: b < k < n ==> !EndsAt(run, k, t, user)
  }

  /** The last step before state n to use the session, or step b. */
  function LastUse(run: Run, b: nat, n: nat, t: string): (l: nat)
    requires run.Shaped() && b < n < |run.states|
    ensures b <= l < n
  {
    if n == b + 1 then b else if TouchedAt(run, n - 1, t) then n - 1 else LastUse(run, b, n - 1, t)
  }

  /** Step b issued the session, to this account. */
  ghost predicate IssuedAt(run: Run, b: nat, t: string, user: string)
    requires run.Shaped() && b < |run.steps|
  {
    && run.outcomes[b] == SessionIssued(t) && t !in run.states[b].sessions
    && Standing(run.states[b + 1], t, user)
  }

  /** Every session reported as issued is. */
  lemma ReportedIsIssued(run: Run, b: nat, t: string) returns (user: string)
    requires run.Valid() && Tidy(run.states[0]) && b < |run.steps| && run.outcomes[b] == SessionIssued(t)
    ensures IssuedAt(run, b, t, user)
  {
    RunGrows(run, 0, b);
    assert run.Takes(b);
    StepOpens(run.env, run.states[b], run.steps[b]);
    RunStep(run, b, t);
    IssuerIsASignIn(run.env, run.states[b], run.steps[b]);
    Frames.LoginFrame(run.env, run.states[b], run.steps[b].now, run.steps[b].actor, run.steps[b].op.login);
    user := run.states[b + 1].sessions[t].user;
  }

  lemma {:induction false} StandsUnlessEnded(run: Run, b: nat, n: nat, t: string, user: string)
    requires run.Valid() && Tidy(run.states[0]) && b < n < |run.states| && IssuedAt(run, b, t, user)
    requires Unended(run, b, n, t, user)
    ensures Standing(run.states[n], t, user)
  {
    if n > b + 1 {
      StandsUnlessEnded(run, b, n - 1, t, user);
      RunGrows(run, 0, n - 1);
      assert run.Takes(n - 1) && !EndsAt(run, n - 1, t, user);
      StepLeaves(run.env, run.states[n - 1], run.steps[n - 1], t, user);
    }
  }

  lemma IssuedClocks(run: Run, b: nat, t: string, user: string)
    requires run.Valid() && Tidy(run.states[0]) && b < |run.steps| && IssuedAt(run, b, t, user)
    ensures Clocks(run, b + 1, t, b, b)
  {
    RunStep(run, b, t);
    ClocksOfTheNew(run, b, t);
  }

  lemma {:induction false} ClocksFromIssue(run: Run, b: nat, n: nat, t: string, user: string)
    requires run.Valid() && Tidy(run.states[0]) && b < n < |run.states| && IssuedAt(run, b, t, user)
    requires Unended(run, b, n, t, user)
    ensures Standing(run.states[n], t, user)
    ensures Clocks(run, n, t, b, LastUse(run, b, n, t))
  {
    StandsUnlessEnded(run, b, n, t, user);
    if n == b + 1 {
      IssuedClocks(run, b, t, user);
    } else {
      ClocksFromIssue(run, b, n - 1, t, user);
      RunStep(run, n - 1, t);
      ClocksCarried(run, n - 1, t, b, LastUse(run, b, n - 1, t));
    }
  }

  lemma EndedIsNotLive(run: Run, b: nat, k: nat, n: nat, t: string, user: string, now: Time)
    requires run.Valid() && Tidy(run.states[0]) && Settled(run.states[0])
    requires b < k < n < |run.states| && IssuedAt(run, b, t, user) && Unended(run, b, k, t, user)
    requires EndsAt(run, k, t, user) && run.steps[n - 1].now <= now
    ensures !Live(run.states[n], now, t)
  {
    StandsUnlessEnded(run, b, k, t, user);
    RunGrows(run, 0, k);
    RunSettles(run, 0, k, t);
    EndedAfter(run, k, t);
    GoneFrom(run, k + 1, n, run.steps[k].now, t);
  }

  lemma {:induction false} GoneFrom(run: Run, i: nat, n: nat, at: Time, t: string)
    requires run.Valid() && Tidy(run.states[0]) && i <= n < |run.states| && Gone(run.states[i], at, t)
    requires i < |run.steps| ==> at <= run.steps[i].now
    ensures Gone(run.states[n], at, t)
  {
    if i < n {
      GoneFrom(run, i, n - 1, at, t);
      RunStepKeepsGone(run, n - 1, at, t);
    }
  }

  /** The first step to end it. */
  lemma {:induction false} FirstEnd(run: Run, b: nat, n: nat, t: string, user: string) returns (k: nat)
    requires run.Shaped() && b < n < |run.states| && !Unended(run, b, n, t, user)
    ensures b < k < n && EndsAt(run, k, t, user) && Unended(run, b, k, t, user)
  {
    if Unended(run, b, n - 1, t, user) {
      k := n - 1;
    } else {
      k := FirstEnd(run, b, n - 1, t, user);
    }
  }

  /** Before the ceiling set at step b, and within the idle window of step l. */
  predicate WithinWindows(run: Run, b: nat, l: nat, user: string, now: Time)
    requires run.Shaped() && b < |run.steps| && l < |run.steps|
  {
    && user in run.states[b].accounts.users && user in run.states[l].accounts.users
    && now < run.steps[b].now + CeilingAt(run, b, user)
    && now < run.steps[l].now + IdleAt(run, l, user)
  }

  lemma IssuedLiveExactly(run: Run, b: nat, n: nat, t: string, user: string, now: Time)
    requires run.Valid() && Tidy(run.states[0]) && Settled(run.states[0])
    requires b < n < |run.states| && run.steps[n - 1].now <= now && IssuedAt(run, b, t, user)
    ensures Live(run.states[n], now, t)
       <==> Unended(run, b, n, t, user) && WithinWindows(run, b, LastUse(run, b, n, t), user, now)
  {
    if Unended(run, b, n, t, user) {
      ClocksFromIssue(run, b, n, t, user);
    } else {
      var k := FirstEnd(run, b, n, t, user);
      EndedIsNotLive(run, b, k, n, t, user, now);
    }
  }

  /** A session reported by step b is live, at any instant from state n on, if and
      only if nothing has ended it, its ceiling has not come, and its idle window
      since it was last used has not closed. */
  lemma LiveExactly(run: Run, b: nat, n: nat, t: string, now: Time) returns (user: string)
    requires run.Valid() && Tidy(run.states[0]) && Settled(run.states[0])
    requires b < n < |run.states| && run.steps[n - 1].now <= now && run.outcomes[b] == SessionIssued(t)
    ensures IssuedAt(run, b, t, user)
    ensures Live(run.states[n], now, t)
       <==> Unended(run, b, n, t, user) && WithinWindows(run, b, LastUse(run, b, n, t), user, now)
  {
    user := ReportedIsIssued(run, b, t);
    IssuedLiveExactly(run, b, n, t, user, now);
  }
}
