/** An organization never loses the last enabled holder of a protected role
    (admin.go:375-401, admin.go:443-527). */
module LastHolder {
  import opened Roles
  import opened State
  import opened System
  import Rule = AccountRules
  import opened Minted
  import Frames

  ghost predicate Held(db: Db, org: string, role: Role) {
    exists id :: Rule.HoldsAs(db, id, org, role)
  }

  /** Accounts other than one are as they were. */
  ghost predicate OnlyTouches(before: Db, after: Db, id: string) {
    forall other :: other != id && other in before.accounts.users ==>
      other in after.accounts.users && Frames.SameUser(before.accounts.users[other], after.accounts.users[other])
  }

  lemma TouchKeepsOthers(before: Db, after: Db, id: string, other: string, org: string, role: Role)
    requires OnlyTouches(before, after, id) && other != id && Rule.HoldsAs(before, other, org, role)
    ensures Held(after, org, role)
  {
    assert Rule.HoldsAs(after, other, org, role);
  }

  /** A change to one account: it keeps the role held if the account held
      something else, still holds it, or was not alone in holding it. */
  lemma TouchKeepsHeld(before: Db, after: Db, id: string, org: string, role: Role)
    requires Held(before, org, role) && OnlyTouches(before, after, id)
    requires Rule.HoldsAs(before, id, org, role) ==> Rule.HoldsAs(after, id, org, role) || !Rule.OnlyHolder(before, id)
    ensures Held(after, org, role)
  {
    var holder :| Rule.HoldsAs(before, holder, org, role);
    if holder != id {
      TouchKeepsOthers(before, after, id, holder, org, role);
    } else if !Rule.HoldsAs(after, id, org, role) {
      var other :| other in before.accounts.users && other != id && Rule.HoldsAs(before, other, org, role);
      TouchKeepsOthers(before, after, id, other, org, role);
    }
  }

  /** Disabling, deleting and re-roling: the scan for another holder. */
  lemma RemovalKeepsHeld(env: Env, rules: Rules, before: Db, actor: Identity, op: AdminOp, org: string, role: Role)
    requires op.DisableUser? || op.DeleteUser? || op.SetRole?
    requires rules.Protected(role) && Held(before, org, role)
    ensures Held(AdminNext(env, before, rules, actor, op).0, org, role)
  {
    var after := AdminNext(env, before, rules, actor, op).0;
    if after != before {
      TouchKeepsHeld(before, after, op.id, org, role);
    }
  }

  lemma EnablingKeepsHeld(env: Env, rules: Rules, before: Db, actor: Identity, id: string, org: string, role: Role)
    requires Held(before, org, role)
    ensures Held(AdminNext(env, before, rules, actor, EnableUser(id)).0, org, role)
  {
    var holder :| Rule.HoldsAs(before, holder, org, role);
    assert Rule.HoldsAs(AdminNext(env, before, rules, actor, EnableUser(id)).0, holder, org, role);
  }

  lemma OtherKeepsHeld(env: Env, rules: Rules, before: Db, actor: Identity, op: AdminOp, org: string, role: Role)
    requires !op.SetRole? && !op.DisableUser? && !op.EnableUser? && !op.DeleteUser?
    requires Held(before, org, role) && Tidy(before)
    ensures Held(AdminNext(env, before, rules, actor, op).0, org, role)
  {
    var holder :| Rule.HoldsAs(before, holder, org, role);
    Frames.UserKept(env, before, rules, actor, op, holder);
    assert Rule.HoldsAs(AdminNext(env, before, rules, actor, op).0, holder, org, role);
  }

  lemma SameAccountsKeepHeld(before: Db, after: Db, org: string, role: Role)
    requires Held(before, org, role) && Frames.SameAccounts(before.accounts, after.accounts)
    ensures Held(after, org, role)
  {
    var holder :| Rule.HoldsAs(before, holder, org, role);
    assert Rule.HoldsAs(after, holder, org, role);
  }

  /** One step of any kind, by anyone. */
  lemma StepKeepsHeld(env: Env, before: Db, step: Step, org: string, role: Role)
    requires step.rules.Protected(role) && Held(before, org, role) && Tidy(before)
    ensures Held(Next(env, before, step).0, org, role)
  {
    match step.op {
      case Admin(op) =>
        if op.DisableUser? || op.DeleteUser? || op.SetRole? {
          RemovalKeepsHeld(env, step.rules, before, step.actor, op, org, role);
        } else if op.EnableUser? {
          EnablingKeepsHeld(env, step.rules, before, step.actor, op.id, org, role);
        } else {
          OtherKeepsHeld(env, step.rules, before, step.actor, op, org, role);
        }
      case Sign(op) =>
        Frames.LoginFrame(env, before, step.now, step.actor, op);
        SameAccountsKeepHeld(before, LoginNext(env, before, step.now, step.actor, op).0, org, role);
      case Factor(op) =>
        Frames.FactorFrame(env, before, step.now, step.rules, step.actor, op);
        SameAccountsKeepHeld(before, FactorNext(env, before, step.now, step.rules, step.actor, op).0, org, role);
    }
  }

  /** Once an organization has an enabled holder of a role that stays protected,
      it has one in every later state, whoever takes the steps between, a
      background job with the administrator role included. */
  lemma {:induction false} AlwaysHeld(run: Run, i: nat, j: nat, org: string, role: Role)
    requires run.Valid() && i <= j < |run.states|
    requires forall k :: i <= k < j ==> run.steps[k].rules.Protected(role)
    requires Tidy(run.states[i]) && Held(run.states[i], org, role)
    ensures Held(run.states[j], org, role)
  {
    if i < j {
      AlwaysHeld(run, i, j - 1, org, role);
      RunGrows(run, i, j - 1);
      StepKeepsHeld(run.env, run.states[j - 1], run.steps[j - 1], org, role);
      assert run.Takes(j - 1);
    }
  }
}
