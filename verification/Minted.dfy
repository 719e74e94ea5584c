/** Every row is filed under a value that has been drawn, and a drawn value is
    never drawn again: ids and tokens are unique over whole runs. */
module Minted {
  import opened Prelude
  import opened Roles
  import opened State
  import opened System
  import opened Text
  import Logins = LoginRules
  import Rule = AccountRules

  ghost predicate Tidy(db: Db) {
    && db.accounts.users.Keys <= db.minted
    && db.accounts.keys.Keys <= db.minted
    && db.sessions.Keys <= db.minted
    && db.pending.mfaTokens.Keys <= db.minted
    && db.pending.challenges.Keys <= db.minted
    && db.factors.credentials.Keys <= db.minted
  }

  /** Drawn values stay drawn and rows stay filed under them. */
  ghost predicate Grows(before: Db, after: Db) {
    before.minted <= after.minted && (Tidy(before) ==> Tidy(after))
  }

  lemma ReplaceGrows(env: Env, db: Db, id: string, next: string, salt: Salt)
    requires id in db.accounts.users
    ensures Grows(db, Rule.Replace(env, db, id, next, salt).0)
  {
  }

  lemma NewRowGrows(env: Env, db: Db, rules: Rules, actor: Identity, op: AdminOp)
    requires op.CreateUser? || op.CreateInvitedUser? || op.MintAPIKey?
    ensures Grows(db, AdminNext(env, db, rules, actor, op).0)
  {
  }

  lemma AdminGrows(env: Env, db: Db, rules: Rules, actor: Identity, op: AdminOp)
    ensures Grows(db, AdminNext(env, db, rules, actor, op).0)
  {
    if op.CreateUser? || op.CreateInvitedUser? || op.MintAPIKey? {
      NewRowGrows(env, db, rules, actor, op);
    } else if op.ChangePassword? && actor.user in db.accounts.users {
      ReplaceGrows(env, db, actor.user, op.next, op.salt);
    } else if op.ResetPassword? && op.id in db.accounts.users {
      ReplaceGrows(env, db, op.id, op.next, op.salt);
    }
  }

  lemma FactorGrows(env: Env, db: Db, now: Time, rules: Rules, actor: Identity, op: FactorOp)
    ensures Grows(db, FactorNext(env, db, now, rules, actor, op).0)
  {
  }

  lemma VerifyFactorGrows(env: Env, db: Db, now: Time, id: string, code: string)
    ensures Grows(db, Logins.VerifyFactor(env, db, now, id, code).0)
  {
  }

  lemma AfterPasswordGrows(env: Env, db: Db, now: Time, id: string, token: string)
    requires id in db.accounts.users
    ensures Grows(db, Logins.AfterPassword(env, db, now, id, token).0)
  {
  }

  lemma LoginAsGrows(env: Env, db: Db, now: Time, id: string, password: string, salt: Salt, token: string)
    requires id in db.accounts.users
    ensures Grows(db, Logins.LoginAs(env, db, now, id, password, salt, token).0)
  {
    assert Grows(db, Logins.Upgraded(env, db, id, password, salt));
  }

  lemma CompleteMFAGrows(env: Env, db: Db, now: Time, mfaToken: string, code: string, token: string)
    ensures Grows(db, Logins.CompleteMFA(env, db, now, mfaToken, code, token).0)
  {
    if Logins.Claimable(db, now, mfaToken) {
      VerifyFactorGrows(env, Logins.Claimed(db, mfaToken), now, db.pending.mfaTokens[mfaToken].user, code);
    }
  }

  lemma StepUpGrows(env: Env, db: Db, now: Time, actor: Identity, secret: string)
    ensures Grows(db, Logins.StepUpWithSecret(env, db, now, actor, secret).0)
  {
    VerifyFactorGrows(env, db, now, actor.user, secret);
  }

  lemma CompletePasskeyGrows(env: Env, db: Db, now: Time, challenge: string, assertion: Option<string>, token: string)
    ensures Grows(db, Logins.CompletePasskeyLogin(env, db, now, challenge, assertion, token).0)
  {
  }

  lemma CompletePasswordlessGrows(
    env: Env, db: Db, now: Time, challenge: string, handle: string, assertion: Option<string>, token: string)
    ensures Grows(db, Logins.CompletePasswordlessLogin(env, db, now, challenge, handle, assertion, token).0)
  {
  }

  lemma CompleteStepUpGrows(db: Db, now: Time, actor: Identity, challenge: string, assertion: Option<string>)
    ensures Grows(db, Logins.CompleteStepUpWithPasskey(db, now, actor, challenge, assertion).0)
  {
  }

  lemma LoginGrows(env: Env, db: Db, now: Time, actor: Identity, op: LoginOp)
    ensures Grows(db, LoginNext(env, db, now, actor, op).0)
  {
    match op {
      case Login(email, password, salt, token) =>
        var address := Lower(Trim(email));
        if address in db.accounts.emails && db.accounts.emails[address] in db.accounts.users {
          LoginAsGrows(env, db, now, db.accounts.emails[address], password, salt, token);
        }
      case CompleteMFA(mfaToken, code, token) => CompleteMFAGrows(env, db, now, mfaToken, code, token);
      case StepUpWithSecret(secret) => StepUpGrows(env, db, now, actor, secret);
      case CompletePasskeyLogin(challenge, assertion, token) =>
        CompletePasskeyGrows(env, db, now, challenge, assertion, token);
      case CompletePasswordlessLogin(challenge, handle, assertion, token) =>
        CompletePasswordlessGrows(env, db, now, challenge, handle, assertion, token);
      case CompleteStepUpWithPasskey(challenge, assertion) =>
        CompleteStepUpGrows(db, now, actor, challenge, assertion);
      case _ =>
    }
  }

  lemma StepGrows(env: Env, db: Db, step: Step)
    ensures Grows(db, Next(env, db, step).0)
  {
    match step.op {
      case Admin(op) => AdminGrows(env, db, step.rules, step.actor, op);
      case Sign(op) => LoginGrows(env, db, step.now, step.actor, op);
      case Factor(op) => FactorGrows(env, db, step.now, step.rules, step.actor, op);
    }
  }

  /** Over a whole run. */
  lemma {:induction false} RunGrows(run: Run, i: nat, j: nat)
    requires run.Valid() && i <= j < |run.states|
    ensures Grows(run.states[i], run.states[j])
  {
    if i < j {
      RunGrows(run, i, j - 1);
      assert run.Takes(j - 1);
      StepGrows(run.env, run.states[j - 1], run.steps[j - 1]);
    }
  }
}
