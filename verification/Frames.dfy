/** Which tables each service leaves alone. */
module Frames {
  import opened Prelude
  import opened State
  import opened Roles
  import opened System
  import opened Text
  import Logins = LoginRules
  import Rule = AccountRules

  predicate SameUser(u: User, v: User) {
    u.org == v.org && u.email == v.email && u.name == v.name && u.role == v.role && u.disabled == v.disabled
  }

  /** The same accounts, but for a password rehashed at sign-in. */
  ghost predicate SameAccounts(a: AccountTables, b: AccountTables) {
    && a.users.Keys == b.users.Keys
    && (forall id :: id in a.users ==> SameUser(a.users[id], b.users[id]))
    && b == a.(users := b.users)
  }

  /** The same factors, but for spent codes and the replay counter. */
  ghost predicate SameFactors(a: FactorTables, b: FactorTables) {
    && a.credentials == b.credentials
    && a.enrollments.Keys == b.enrollments.Keys
    && (forall id :: id in a.enrollments ==>
          b.enrollments[id] == a.enrollments[id].(lastUsedStep := b.enrollments[id].lastUsedStep))
  }

  lemma VerifyFactorFrame(env: Env, db: Db, now: Time, id: string, code: string)
    ensures var after := Logins.VerifyFactor(env, db, now, id, code).0;
            && after == db.(factors := after.factors)
            && SameFactors(db.factors, after.factors)
  {
  }

  lemma UpgradedFrame(env: Env, db: Db, id: string, password: string, salt: Salt)
    requires id in db.accounts.users
    ensures var after := Logins.Upgraded(env, db, id, password, salt);
            SameAccounts(db.accounts, after.accounts) && after == db.(accounts := after.accounts)
  {
  }

  lemma AfterPasswordFrame(env: Env, db: Db, now: Time, id: string, token: string)
    requires id in db.accounts.users
    ensures var after := Logins.AfterPassword(env, db, now, id, token).0;
            after.accounts == db.accounts && after.factors == db.factors
  {
  }

  lemma LoginAsFrame(env: Env, db: Db, now: Time, id: string, password: string, salt: Salt, token: string)
    requires id in db.accounts.users
    ensures var after := Logins.LoginAs(env, db, now, id, password, salt, token).0;
            SameAccounts(db.accounts, after.accounts) && after.factors == db.factors
  {
    var upgraded := Logins.Upgraded(env, db, id, password, salt);
    UpgradedFrame(env, db, id, password, salt);
    AfterPasswordFrame(env, upgraded, now, id, token);
  }

  lemma CompleteMFAFrame(env: Env, db: Db, now: Time, mfaToken: string, code: string, token: string)
    ensures var after := Logins.CompleteMFA(env, db, now, mfaToken, code, token).0;
            after.accounts == db.accounts && SameFactors(db.factors, after.factors)
  {
    if Logins.Claimable(db, now, mfaToken) {
      VerifyFactorFrame(env, Logins.Claimed(db, mfaToken), now, db.pending.mfaTokens[mfaToken].user, code);
    }
  }

  lemma StepUpFrame(env: Env, db: Db, now: Time, actor: Identity, secret: string)
    ensures var after := Logins.StepUpWithSecret(env, db, now, actor, secret).0;
            after.accounts == db.accounts && SameFactors(db.factors, after.factors)
  {
    VerifyFactorFrame(env, db, now, actor.user, secret);
  }

  /** The sign-in operations that look at no code and rehash no password. */
  predicate Quiet(op: LoginOp) {
    !op.Login? && !op.CompleteMFA? && !op.StepUpWithSecret?
  }

  lemma CompletionFrame(env: Env, db: Db, now: Time, actor: Identity, op: LoginOp)
    requires op.CompletePasskeyLogin? || op.CompletePasswordlessLogin? || op.CompleteStepUpWithPasskey?
    ensures var after := LoginNext(env, db, now, actor, op).0;
            after.accounts == db.accounts && after.factors == db.factors
  {
  }

  lemma QuietFrame(env: Env, db: Db, now: Time, actor: Identity, op: LoginOp)
    requires Quiet(op)
    ensures var after := LoginNext(env, db, now, actor, op).0;
            after.accounts == db.accounts && after.factors == db.factors
  {
    if op.CompletePasskeyLogin? || op.CompletePasswordlessLogin? || op.CompleteStepUpWithPasskey? {
      CompletionFrame(env, db, now, actor, op);
    }
  }

  /** No sign-in operation changes an account, or adds or removes a factor. */
  lemma LoginFrame(env: Env, db: Db, now: Time, actor: Identity, op: LoginOp)
    ensures SameAccounts(db.accounts, LoginNext(env, db, now, actor, op).0.accounts)
    ensures SameFactors(db.factors, LoginNext(env, db, now, actor, op).0.factors)
  {
    match op {
      case Login(email, password, salt, token) =>
        var address := Lower(Trim(email));
        if address in db.accounts.emails && db.accounts.emails[address] in db.accounts.users {
          LoginAsFrame(env, db, now, db.accounts.emails[address], password, salt, token);
        }
      case CompleteMFA(mfaToken, code, token) => CompleteMFAFrame(env, db, now, mfaToken, code, token);
      case StepUpWithSecret(secret) => StepUpFrame(env, db, now, actor, secret);
      case _ => QuietFrame(env, db, now, actor, op);
    }
  }

  /** No factor operation touches an account, a session or a step-one token. */
  lemma FactorFrame(env: Env, db: Db, now: Time, rules: Rules, actor: Identity, op: FactorOp)
    ensures var after := FactorNext(env, db, now, rules, actor, op).0;
            && after.accounts == db.accounts && after.sessions == db.sessions
            && after.pending.mfaTokens == db.pending.mfaTokens
  {
  }

  /** No account operation touches a factor, a step-one token or a challenge. */
  lemma AdminFrame(env: Env, db: Db, rules: Rules, actor: Identity, op: AdminOp)
    ensures var after := AdminNext(env, db, rules, actor, op).0;
            after.pending == db.pending && after.factors == db.factors
  {
  }

  lemma ReplaceKeeps(env: Env, db: Db, target: string, next: string, salt: Salt, id: string)
    requires target in db.accounts.users && id in db.accounts.users
    ensures var after := Rule.Replace(env, db, target, next, salt).0;
            id in after.accounts.users && SameUser(db.accounts.users[id], after.accounts.users[id])
  {
  }

  lemma InsertKeeps(db: Db, added: string, u: User, id: string)
    requires id in db.accounts.users && id in db.minted
    ensures var after := Rule.Insert(db, added, u).0;
            id in after.accounts.users && after.accounts.users[id] == db.accounts.users[id]
  {
  }

  lemma CreateKeeps(env: Env, db: Db, rules: Rules, actor: Identity, email: string, name: string, role: Role,
                    password: string, salt: Salt, added: string, id: string)
    requires id in db.accounts.users && id in db.minted
    ensures var after := Rule.CreateUser(env, rules, db, actor, email, name, role, password, salt, added).0;
            id in after.accounts.users && after.accounts.users[id] == db.accounts.users[id]
  {
    InsertKeeps(db, added, User(actor.org, Trim(email), Trim(name), env.hash(password, salt), role, false), id);
  }

  lemma InviteKeeps(db: Db, rules: Rules, actor: Identity, email: string, name: string, role: Role, added: string,
                    id: string)
    requires id in db.accounts.users && id in db.minted
    ensures var after := Rule.CreateInvitedUser(rules, db, actor, email, name, role, added).0;
            id in after.accounts.users && after.accounts.users[id] == db.accounts.users[id]
  {
    InsertKeeps(db, added, User(actor.org, Trim(email), Trim(name), "", role, false), id);
  }

  lemma StoredKeeps(env: Env, db: Db, target: string, password: string, salt: Salt, depth: int, id: string)
    requires target in db.accounts.users && id in db.accounts.users
    ensures var after := Rule.Stored(env, db, target, password, salt, depth);
            id in after.accounts.users && SameUser(db.accounts.users[id], after.accounts.users[id])
  {
  }

  lemma InitialKeeps(env: Env, db: Db, target: string, password: string, salt: Salt, id: string)
    requires id in db.accounts.users
    ensures var after := Rule.SetInitialPassword(env, db, target, password, salt).0;
            id in after.accounts.users && SameUser(db.accounts.users[id], after.accounts.users[id])
  {
    if target in db.accounts.users {
      StoredKeeps(env, db, target, password, salt, PolicyFor(db, db.accounts.users[target].org).historyDepth, id);
    }
  }

  lemma CreationKeeps(env: Env, db: Db, rules: Rules, actor: Identity, op: AdminOp, id: string)
    requires op.CreateUser? || op.CreateInvitedUser?
    requires id in db.accounts.users && id in db.minted
    ensures var after := AdminNext(env, db, rules, actor, op).0;
            id in after.accounts.users && SameUser(db.accounts.users[id], after.accounts.users[id])
  {
    if op.CreateUser? {
      CreateKeeps(env, db, rules, actor, op.email, op.name, op.role, op.password, op.salt, op.id, id);
    } else {
      InviteKeeps(db, rules, actor, op.email, op.name, op.role, op.id, id);
    }
  }

  lemma PasswordKeeps(env: Env, db: Db, rules: Rules, actor: Identity, op: AdminOp, id: string)
    requires op.ChangePassword? || op.ResetPassword?
    requires id in db.accounts.users
    ensures var after := AdminNext(env, db, rules, actor, op).0;
            id in after.accounts.users && SameUser(db.accounts.users[id], after.accounts.users[id])
  {
    if op.ChangePassword? && actor.user in db.accounts.users {
      ReplaceKeeps(env, db, actor.user, op.next, op.salt, id);
    } else if op.ResetPassword? && op.id in db.accounts.users {
      ReplaceKeeps(env, db, op.id, op.next, op.salt, id);
    }
  }

  /** Account operations other than re-roling, disabling, enabling and deleting
      keep every account as it is, but for its password. */
  lemma UserKept(env: Env, db: Db, rules: Rules, actor: Identity, op: AdminOp, id: string)
    requires !op.SetRole? && !op.DisableUser? && !op.EnableUser? && !op.DeleteUser?
    requires id in db.accounts.users && id in db.minted
    ensures var after := AdminNext(env, db, rules, actor, op).0;
            id in after.accounts.users && SameUser(db.accounts.users[id], after.accounts.users[id])
  {
    if op.CreateUser? || op.CreateInvitedUser? {
      CreationKeeps(env, db, rules, actor, op, id);
    } else if op.ChangePassword? || op.ResetPassword? {
      PasswordKeeps(env, db, rules, actor, op, id);
    } else if op.SetInitialPassword? {
      InitialKeeps(env, db, op.id, op.password, op.salt, id);
    }
  }

  /** The operations that make an account or store a password. */
  predicate Stores(op: AdminOp) {
    op.CreateUser? || op.CreateInvitedUser? || op.SetInitialPassword? || op.ChangePassword? || op.ResetPassword?
  }

  lemma ReplaceFrame(env: Env, db: Db, id: string, next: string, salt: Salt)
    requires id in db.accounts.users
    ensures var after := Rule.Replace(env, db, id, next, salt).0;
            after.accounts.keys == db.accounts.keys && after.accounts.policies == db.accounts.policies
  {
  }

  /** They leave keys and policies alone. */
  lemma StoringFrame(env: Env, db: Db, rules: Rules, actor: Identity, op: AdminOp)
    requires Stores(op)
    ensures var after := AdminNext(env, db, rules, actor, op).0;
            after.accounts.keys == db.accounts.keys && after.accounts.policies == db.accounts.policies
  {
    if op.ChangePassword? && actor.user in db.accounts.users {
      ReplaceFrame(env, db, actor.user, op.next, op.salt);
    } else if op.ResetPassword? && op.id in db.accounts.users {
      ReplaceFrame(env, db, op.id, op.next, op.salt);
    }
  }

  /** The operations on an existing account that store no password. */
  predicate Targets(op: AdminOp) {
    op.DisableUser? || op.EnableUser? || op.DeleteUser? || op.SetRole?
  }

  /** They change no key and no policy; a deletion takes the account's keys. */
  lemma TargetedFrame(env: Env, db: Db, rules: Rules, actor: Identity, op: AdminOp)
    requires Targets(op)
    ensures var after := AdminNext(env, db, rules, actor, op).0;
            && after.accounts.policies == db.accounts.policies
            && (after.accounts.keys == db.accounts.keys
                || (op.DeleteUser? && after.accounts.keys == KeysWithout(db.accounts.keys, op.id)))
  {
  }
}
