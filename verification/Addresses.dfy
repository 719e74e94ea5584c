/** One account per address, letter case aside, over whole runs
    (admin.go:331-359; store.go:79-80). */
module Addresses {
  import opened Prelude
  import opened Roles
  import opened State
  import opened System
  import opened Minted
  import opened Text
  import Rule = AccountRules
  import Frames

  /** The index leads from every account's address to that account. */
  ghost predicate Filed(db: Db, id: string) {
    id in db.accounts.users ==>
      && Lower(db.accounts.users[id].email) in db.accounts.emails
      && db.accounts.emails[Lower(db.accounts.users[id].email)] == id
  }

  /** Every entry of the index leads to an account with that address. */
  ghost predicate Leads(db: Db, address: string) {
    address in db.accounts.emails ==>
      && db.accounts.emails[address] in db.accounts.users
      && Lower(db.accounts.users[db.accounts.emails[address]].email) == address
  }

  ghost predicate Indexed(db: Db) {
    && (forall id :: Filed(db, id))
    && (forall address :: Leads(db, address))
  }

  lemma InsertIndexes(db: Db, id: string, u: User)
    requires Indexed(db) && Tidy(db)
    ensures Indexed(Rule.Insert(db, id, u).0)
  {
    var after := Rule.Insert(db, id, u).0;
    forall other
      ensures Filed(after, other)
    {
      assert Filed(db, other);
    }
    forall address
      ensures Leads(after, address)
    {
      assert Leads(db, address);
    }
  }

  lemma DeletionIndexes(db: Db, id: string)
    requires Indexed(db) && id in db.accounts.users
    ensures Indexed(WithoutUser(db, id, Lower(db.accounts.users[id].email)))
  {
    var after := WithoutUser(db, id, Lower(db.accounts.users[id].email));
    assert Filed(db, id);
    forall other
      ensures Filed(after, other)
    {
      assert Filed(db, other);
    }
    forall address
      ensures Leads(after, address)
    {
      assert Leads(db, address);
    }
  }

  /** The index is as it was, and the account has not come, gone or moved. */
  ghost predicate SameAddress(before: Db, after: Db, id: string) {
    && after.accounts.emails == before.accounts.emails
    && (id in before.accounts.users <==> id in after.accounts.users)
    && (id in before.accounts.users ==> after.accounts.users[id].email == before.accounts.users[id].email)
  }

  lemma SameAddressesIndexed(before: Db, after: Db)
    requires Indexed(before) && forall id :: SameAddress(before, after, id)
    ensures Indexed(after)
  {
    forall id
      ensures Filed(after, id)
    {
      assert Filed(before, id) && SameAddress(before, after, id);
    }
    forall address
      ensures Leads(after, address)
    {
      assert Leads(before, address);
      assert address in before.accounts.emails ==> SameAddress(before, after, before.accounts.emails[address]);
      assert SameAddress(before, after, "");
    }
  }

  lemma ReplaceKeepsAddress(env: Env, db: Db, target: string, next: string, salt: Salt, id: string)
    requires target in db.accounts.users
    ensures SameAddress(db, Rule.Replace(env, db, target, next, salt).0, id)
  {
  }

  lemma InitialKeepsAddress(env: Env, db: Db, target: string, password: string, salt: Salt, id: string)
    ensures SameAddress(db, Rule.SetInitialPassword(env, db, target, password, salt).0, id)
  {
  }

  lemma PasswordsKeepAddress(env: Env, db: Db, rules: Rules, actor: Identity, op: AdminOp, id: string)
    requires op.SetInitialPassword? || op.ChangePassword? || op.ResetPassword?
    ensures SameAddress(db, AdminNext(env, db, rules, actor, op).0, id)
  {
    match op {
      case SetInitialPassword(target, password, salt) => InitialKeepsAddress(env, db, target, password, salt, id);
      case ChangePassword(_, next, salt) =>
        if actor.user in db.accounts.users {
          ReplaceKeepsAddress(env, db, actor.user, next, salt, id);
        }
      case ResetPassword(target, next, salt) =>
        if target in db.accounts.users {
          ReplaceKeepsAddress(env, db, target, next, salt, id);
        }
    }
  }

  lemma OthersKeepAddress(env: Env, db: Db, rules: Rules, actor: Identity, op: AdminOp, id: string)
    requires op.DisableUser? || op.EnableUser? || op.SetRole? || op.MintAPIKey? || op.RevokeAPIKey?
             || op.SetPasswordPolicy?
    ensures SameAddress(db, AdminNext(env, db, rules, actor, op).0, id)
  {
  }

  lemma MostKeepAddresses(env: Env, db: Db, rules: Rules, actor: Identity, op: AdminOp)
    requires !op.CreateUser? && !op.CreateInvitedUser? && !op.DeleteUser?
    ensures forall id :: SameAddress(db, AdminNext(env, db, rules, actor, op).0, id)
  {
    forall id
      ensures SameAddress(db, AdminNext(env, db, rules, actor, op).0, id)
    {
      if op.SetInitialPassword? || op.ChangePassword? || op.ResetPassword? {
        PasswordsKeepAddress(env, db, rules, actor, op, id);
      } else {
        OthersKeepAddress(env, db, rules, actor, op, id);
      }
    }
  }

  lemma AdminIndexes(env: Env, db: Db, rules: Rules, actor: Identity, op: AdminOp)
    requires Indexed(db) && Tidy(db)
    ensures Indexed(AdminNext(env, db, rules, actor, op).0)
  {
    match op {
      case CreateUser(email, name, role, password, salt, id) =>
        InsertIndexes(db, id, User(actor.org, Trim(email), Trim(name), env.hash(password, salt), role, false));
      case CreateInvitedUser(email, name, role, id) =>
        InsertIndexes(db, id, User(actor.org, Trim(email), Trim(name), "", role, false));
      case DeleteUser(id) =>
        if id in db.accounts.users {
          DeletionIndexes(db, id);
        }
      case _ =>
        MostKeepAddresses(env, db, rules, actor, op);
        SameAddressesIndexed(db, AdminNext(env, db, rules, actor, op).0);
    }
  }

  lemma StepIndexes(env: Env, db: Db, step: Step)
    requires Indexed(db) && Tidy(db)
    ensures Indexed(Next(env, db, step).0)
  {
    match step.op {
      case Admin(op) => AdminIndexes(env, db, step.rules, step.actor, op);
      case Sign(op) =>
        Frames.LoginFrame(env, db, step.now, step.actor, op);
        SameAddressesIndexed(db, Next(env, db, step).0);
      case Factor(op) =>
        Frames.FactorFrame(env, db, step.now, step.rules, step.actor, op);
        SameAddressesIndexed(db, Next(env, db, step).0);
    }
  }

  lemma {:induction false} AlwaysIndexed(run: Run, n: nat)
    requires run.Valid() && Tidy(run.states[0]) && Indexed(run.states[0]) && n < |run.states|
    ensures Indexed(run.states[n])
  {
    if n > 0 {
      AlwaysIndexed(run, n - 1);
      RunGrows(run, 0, n - 1);
      StepIndexes(run.env, run.states[n - 1], run.steps[n - 1]);
      assert run.Takes(n - 1);
    }
  }

  /** In every state of every run, no two accounts share an address, letter case
      aside, and an address in any case finds its account. */
  lemma OneAccountPerAddress(run: Run, n: nat, id: string, other: string)
    requires run.Valid() && Tidy(run.states[0]) && Indexed(run.states[0]) && n < |run.states|
    requires id in run.states[n].accounts.users && other in run.states[n].accounts.users
    requires Lower(run.states[n].accounts.users[id].email) == Lower(run.states[n].accounts.users[other].email)
    ensures id == other
    ensures var address := Lower(run.states[n].accounts.users[id].email);
            address in run.states[n].accounts.emails && run.states[n].accounts.emails[address] == id
  {
    AlwaysIndexed(run, n);
    assert Filed(run.states[n], id) && Filed(run.states[n], other);
  }
}
