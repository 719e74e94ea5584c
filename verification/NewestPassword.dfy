/** An account's newest password, and no other in use, signs in to it, over whole
    runs (authenticator.go:205-269; admin.go:244-310, 574-691). */
module NewestPassword {
  import opened Prelude
  import opened Roles
  import opened State
  import opened System
  import opened Minted
  import opened Text
  import opened HistoryWindow
  import opened SignInConditions
  import AccountConditions
  import Addresses
  import Rule = AccountRules
  import Logins = LoginRules
  import Frames

  /** The account's hash is one of the newest of these passwords. */
  ghost predicate Current(env: Env, db: Db, id: string, passwords: seq<string>) {
    passwords != [] ==>
      && id in db.minted
      && (id in db.accounts.users ==> IsHashOf(env, db.accounts.users[id].hash, passwords[0]))
  }

  // ---- One step ----------------------------------------------------------------------------

  lemma PasswordStep(env: Env, db: Db, step: Step, id: string, passwords: seq<string>)
    requires Tidy(db) && Current(env, db, id, passwords) && step.op.Admin?
    requires var op := step.op.admin; op.SetInitialPassword? || op.ChangePassword? || op.ResetPassword?
    ensures var (after, outcome) := Next(env, db, step);
            Current(env, after, id, Extended(passwords, Given(step, outcome, id)))
  {
    var outcome := Next(env, db, step).1;
    AdminGrows(env, db, step.rules, step.actor, step.op.admin);
    match step.op.admin {
      case SetInitialPassword(target, password, salt) =>
        AccountConditions.InitialSetIff(env, db, step.rules, step.actor, target, password, salt);
      case ChangePassword(current, next, salt) =>
        AccountConditions.ChangedIff(env, db, step.rules, step.actor, current, next, salt);
      case ResetPassword(target, next, salt) =>
        AccountConditions.ResetIff(env, db, step.rules, step.actor, target, next, salt);
    }
    PasswordEnds(env, db, step);
  }

  lemma PasswordEnds(env: Env, db: Db, step: Step)
    requires step.op.Admin?
    requires var op := step.op.admin; op.SetInitialPassword? || op.ChangePassword? || op.ResetPassword?
    ensures var (after, outcome) := Next(env, db, step);
            outcome == Done || after == db
  {
  }

  lemma InsertStep(env: Env, db: Db, added: string, u: User, id: string, passwords: seq<string>, given: Option<string>)
    requires Tidy(db) && Current(env, db, id, passwords)
    requires given.Some? ==> IsHashOf(env, u.hash, given.value)
    ensures var (after, outcome) := Rule.Insert(db, added, u);
            Current(env, after, id, Extended(passwords, if outcome == Created(id) then given else None))
  {
  }

  lemma CreateStep(env: Env, db: Db, rules: Rules, actor: Identity, email: string, name: string, role: Role,
                   password: string, salt: Salt, added: string, id: string, passwords: seq<string>)
    requires Tidy(db) && Current(env, db, id, passwords)
    ensures var (after, outcome) := Rule.CreateUser(env, rules, db, actor, email, name, role, password, salt, added);
            Current(env, after, id, Extended(passwords, if outcome == Created(id) then Some(password) else None))
  {
    var u := User(actor.org, Trim(email), Trim(name), env.hash(password, salt), role, false);
    InsertStep(env, db, added, u, id, passwords, Some(password));
  }

  lemma InviteStep(env: Env, db: Db, rules: Rules, actor: Identity, email: string, name: string, role: Role,
                   added: string, id: string, passwords: seq<string>)
    requires Tidy(db) && Current(env, db, id, passwords)
    ensures Current(env, Rule.CreateInvitedUser(rules, db, actor, email, name, role, added).0, id, passwords)
  {
    InsertStep(env, db, added, User(actor.org, Trim(email), Trim(name), "", role, false), id, passwords, None);
  }

  lemma OtherAdminStep(env: Env, db: Db, step: Step, id: string, passwords: seq<string>)
    requires Tidy(db) && Current(env, db, id, passwords) && step.op.Admin?
    requires var op := step.op.admin; Frames.Targets(op) || op.MintAPIKey? || op.RevokeAPIKey? || op.SetPasswordPolicy?
    requires !step.op.admin.ResetPassword?
    ensures var (after, outcome) := Next(env, db, step);
            Current(env, after, id, passwords) && Given(step, outcome, id).None?
  {
    var op := step.op.admin;
    AdminGrows(env, db, step.rules, step.actor, op);
    if op.DisableUser? || op.EnableUser? || op.DeleteUser? || op.SetRole? {
      TargetedKeepHashes(env, db, step.rules, step.actor, op, id);
    }
  }

  lemma SignInStep(env: Env, used: set<string>, db: Db, step: Step, id: string, passwords: seq<string>)
    requires Hashing(env, used) && Current(env, db, id, passwords) && InUse(passwords, used)
    requires step.op.Sign? && (step.op.login.Login? ==> step.op.login.password in used)
    ensures Current(env, Next(env, db, step).0, id, passwords)
  {
    LoginGrows(env, db, step.now, step.actor, step.op.login);
    match step.op.login {
      case Login(email, password, salt, token) =>
        var address := Lower(Trim(email));
        if address in db.accounts.emails && db.accounts.emails[address] in db.accounts.users {
          LoginAsStep(env, used, db, step.now, db.accounts.emails[address], password, salt, token, id, passwords);
        }
      case CompleteMFA(mfaToken, code, token) => Frames.CompleteMFAFrame(env, db, step.now, mfaToken, code, token);
      case StepUpWithSecret(secret) => Frames.StepUpFrame(env, db, step.now, step.actor, secret);
      case _ => Frames.QuietFrame(env, db, step.now, step.actor, step.op.login);
    }
  }

  lemma LoginAsStep(env: Env, used: set<string>, db: Db, now: Time, target: string, password: string, salt: Salt,
                    token: string, id: string, passwords: seq<string>)
    requires Hashing(env, used) && Current(env, db, id, passwords) && InUse(passwords, used)
    requires target in db.accounts.users && password in used
    ensures Current(env, Logins.LoginAs(env, db, now, target, password, salt, token).0, id, passwords)
  {
    var upgraded := Logins.Upgraded(env, db, target, password, salt);
    LoginAsGrows(env, db, now, target, password, salt, token);
    if PasswordIs(env, db, target, password) {
      if target == id && passwords != [] {
        HashVerifiesOnly(env, used, db.accounts.users[id].hash, passwords[0], password);
      }
      UpgradeLeaves(env, db, target, password, salt);
      Frames.AfterPasswordFrame(env, upgraded, now, target, token);
    }
  }

  lemma StepIsCurrent(env: Env, used: set<string>, db: Db, step: Step, id: string, passwords: seq<string>)
    requires Hashing(env, used) && Tidy(db) && Current(env, db, id, passwords) && InUse(passwords, used)
    requires step.op.Sign? && step.op.login.Login? ==> step.op.login.password in used
    ensures var (after, outcome) := Next(env, db, step);
            Current(env, after, id, Extended(passwords, Given(step, outcome, id)))
  {
    match step.op {
      case Admin(op) =>
        if op.SetInitialPassword? || op.ChangePassword? || op.ResetPassword? {
          PasswordStep(env, db, step, id, passwords);
        } else if op.CreateUser? {
          CreateStep(env, db, step.rules, step.actor, op.email, op.name, op.role, op.password, op.salt, op.id, id,
                     passwords);
        } else if op.CreateInvitedUser? {
          InviteStep(env, db, step.rules, step.actor, op.email, op.name, op.role, op.id, id, passwords);
        } else {
          OtherAdminStep(env, db, step, id, passwords);
        }
      case Sign(op) => SignInStep(env, used, db, step, id, passwords);
      case Factor(op) =>
        Frames.FactorFrame(env, db, step.now, step.rules, step.actor, op);
        FactorGrows(env, db, step.now, step.rules, step.actor, op);
    }
  }

  // ---- Whole runs --------------------------------------------------------------------------

  lemma RunStepIsCurrent(run: Run, used: set<string>, i: nat, id: string, passwords: seq<string>)
    requires run.Valid() && Hashing(run.env, used) && Covers(run, used, id) && Tidy(run.states[0])
    requires i < |run.steps| && Current(run.env, run.states[i], id, passwords) && InUse(passwords, used)
    ensures Current(run.env, run.states[i + 1], id, Extended(passwords, Given(run.steps[i], run.outcomes[i], id)))
  {
    RunGrows(run, 0, i);
    assert run.Takes(i);
    StepIsCurrent(run.env, used, run.states[i], run.steps[i], id, passwords);
  }

  lemma {:induction false} CurrentThroughout(run: Run, used: set<string>, n: nat, id: string)
    requires run.Valid() && Hashing(run.env, used) && Covers(run, used, id) && Tidy(run.states[0])
    requires n < |run.states|
    ensures Current(run.env, run.states[n], id, Passwords(run, n, id))
  {
    if n > 0 {
      CurrentThroughout(run, used, n - 1, id);
      GivenAreCovered(run, used, n - 1, id);
      RunStepIsCurrent(run, used, n - 1, id, Passwords(run, n - 1, id));
    }
  }

  /** In every state of every run, whatever policies, rehashes and other accounts
      there are: of the passwords in use, exactly the one an account was given last
      takes it past the password step, and only while it is enabled. */
  lemma NewestPasswordSignsIn(run: Run, used: set<string>, n: nat, id: string, now: Time, actor: Identity,
                              email: string, password: string, salt: Salt, token: string)
    requires run.Valid() && Hashing(run.env, used) && Covers(run, used, id) && Tidy(run.states[0])
    requires Addresses.Indexed(run.states[0])
    requires n < |run.states| && Passwords(run, n, id) != [] && Addressed(run.states[n], email, id)
    requires password in used && token !in run.states[n].minted
    ensures var outcome := LoginNext(run.env, run.states[n], now, actor, Login(email, password, salt, token)).1;
            outcome == SessionIssued(token) || outcome == MfaIssued(token)
            <==> password == Passwords(run, n, id)[0] && !run.states[n].accounts.users[id].disabled
  {
    var db, passwords := run.states[n], Passwords(run, n, id);
    CurrentThroughout(run, used, n, id);
    GivenAreCovered(run, used, n, id);
    Addresses.AlwaysIndexed(run, n);
    SignInIff(run.env, db, now, actor, email, password, salt, token, id);
    HashVerifiesOnly(run.env, used, db.accounts.users[id].hash, passwords[0], password);
  }
}
