/** What a coalition of accounts can ever reach by creating, re-roling, disabling,
    enabling, deleting and resetting accounts and minting keys. */
module PrivilegeClosure {
  import opened Prelude
  import opened Roles
  import opened State
  import opened System
  import opened Minted
  import Rule = AccountRules
  import Frames

  /** A caller of role `r` may act on, and grant, the role `q`. */
  ghost predicate MayManage(rules: Rules, r: Role, q: Role) {
    rules.Can(r, rules.manageUsers) && rules.MayHandle(r, q)
  }

  /** Some role of `s` may act on `q`. */
  ghost predicate Reached(rules: Rules, s: iset<Role>, q: Role) {
    exists r :: r in s && MayManage(rules, r, q)
  }

  ghost predicate Closed(rules: Rules, s: iset<Role>) {
    forall q :: Reached(rules, s, q) ==> q in s
  }

  /** Reach: the least closed set holding the given roles. */
  ghost predicate InReach(rules: Rules, roles: iset<Role>, q: Role) {
    forall s: iset<Role> :: roles <= s && Closed(rules, s) ==> q in s
  }

  /** Carries no more than some role of `s` does. */
  ghost predicate Within(rules: Rules, s: iset<Role>, role: Role) {
    exists r :: r in s && rules.PermsOf(role) <= rules.PermsOf(r)
  }

  lemma WithinReaches(rules: Rules, s: iset<Role>, role: Role, q: Role)
    requires Within(rules, s, role) && MayManage(rules, role, q)
    ensures Reached(rules, s, q)
  {
    var r :| r in s && rules.PermsOf(role) <= rules.PermsOf(r);
    assert MayManage(rules, r, q);
  }

  /** A key minted by a caller within `s` is within `s`. */
  lemma KeysStayWithin(rules: Rules, s: iset<Role>, role: Role, requested: Role)
    requires rules.WellFormed() && Within(rules, s, role)
    ensures Within(rules, s, KeyRole(rules, role, requested))
  {
    AtMostIsTheMeet(rules, if rules.Valid(requested) then requested else role, role);
    var r :| r in s && rules.PermsOf(role) <= rules.PermsOf(r);
    assert rules.PermsOf(KeyRole(rules, role, requested)) <= rules.PermsOf(r);
  }

  // ---- One step --------------------------------------------------------------------

  /** The operations on somebody's account that need an actor with authority. */
  predicate Managing(op: AdminOp) {
    op.CreateUser? || op.CreateInvitedUser? || op.DisableUser? || op.EnableUser? || op.DeleteUser? || op.SetRole?
    || op.ResetPassword?
  }

  /** The account is altered: created, deleted, or changed in anything but its
      password. */
  ghost predicate Altered(before: Db, after: Db, u: string) {
    || (u in before.accounts.users) != (u in after.accounts.users)
    || (u in before.accounts.users && !Frames.SameUser(before.accounts.users[u], after.accounts.users[u]))
  }

  /** The account is one the roles of `s` reach in the organization. */
  ghost predicate InBounds(rules: Rules, s: iset<Role>, org: string, db: Db, u: string) {
    u in db.accounts.users ==>
      db.accounts.users[u].org == org && Reached(rules, s, db.accounts.users[u].role)
  }

  ghost predicate Resets(op: Op, outcome: Outcome, u: string) {
    op.Admin? && op.admin.ResetPassword? && op.admin.id == u && outcome == Done
  }

  /** What a managing step by an actor within `s` does to any account. */
  ghost predicate Bounded(rules: Rules, s: iset<Role>, org: string, before: Db, after: Db, u: string) {
    Altered(before, after, u) ==> InBounds(rules, s, org, before, u) && InBounds(rules, s, org, after, u)
  }

  lemma TargetInBounds(rules: Rules, s: iset<Role>, db: Db, actor: Identity, id: string)
    requires Within(rules, s, actor.role) && Rule.Target(rules, db, actor, id).Ok?
    ensures InBounds(rules, s, actor.org, db, id)
  {
    WithinReaches(rules, s, actor.role, db.accounts.users[id].role);
  }

  lemma CreationBounded(env: Env, rules: Rules, s: iset<Role>, db: Db, actor: Identity, op: AdminOp, u: string)
    requires op.CreateUser? || op.CreateInvitedUser?
    requires Within(rules, s, actor.role) && Tidy(db)
    ensures var (after, outcome) := AdminNext(env, db, rules, actor, op);
            && Bounded(rules, s, actor.org, db, after, u)
            && (outcome.Created? ==> outcome.id in after.minted && InBounds(rules, s, actor.org, after, outcome.id))
  {
    if MayManage(rules, actor.role, op.role) {
      WithinReaches(rules, s, actor.role, op.role);
    }
  }

  lemma TargetedBounded(env: Env, rules: Rules, s: iset<Role>, db: Db, actor: Identity, op: AdminOp, u: string)
    requires op.DisableUser? || op.EnableUser? || op.DeleteUser?
    requires Within(rules, s, actor.role)
    ensures Bounded(rules, s, actor.org, db, AdminNext(env, db, rules, actor, op).0, u)
  {
    if Rule.Target(rules, db, actor, op.id).Ok? {
      TargetInBounds(rules, s, db, actor, op.id);
    }
  }

  lemma SetRoleBounded(rules: Rules, s: iset<Role>, db: Db, actor: Identity, id: string, role: Role, u: string)
    requires Within(rules, s, actor.role)
    ensures Bounded(rules, s, actor.org, db, Rule.SetRole(rules, db, actor, id, role).0, u)
  {
    if Rule.Target(rules, db, actor, id).Ok? {
      TargetInBounds(rules, s, db, actor, id);
    }
    if MayManage(rules, actor.role, role) {
      WithinReaches(rules, s, actor.role, role);
    }
  }

  lemma ReplaceAltersNothing(env: Env, db: Db, id: string, next: string, salt: Salt, u: string)
    requires id in db.accounts.users
    ensures !Altered(db, Rule.Replace(env, db, id, next, salt).0, u)
  {
  }

  lemma PasswordAltersNothing(env: Env, rules: Rules, db: Db, actor: Identity, op: AdminOp, u: string)
    requires !Managing(op) || op.ResetPassword?
    ensures !Altered(db, AdminNext(env, db, rules, actor, op).0, u)
  {
    if op.ChangePassword? && actor.user in db.accounts.users {
      ReplaceAltersNothing(env, db, actor.user, op.next, op.salt, u);
    } else if op.ResetPassword? && op.id in db.accounts.users {
      ReplaceAltersNothing(env, db, op.id, op.next, op.salt, u);
    }
  }

  lemma ManagingBounded(env: Env, rules: Rules, s: iset<Role>, db: Db, actor: Identity, op: AdminOp, u: string)
    requires Managing(op) && Within(rules, s, actor.role) && Tidy(db)
    ensures Bounded(rules, s, actor.org, db, AdminNext(env, db, rules, actor, op).0, u)
    ensures Resets(Admin(op), AdminNext(env, db, rules, actor, op).1, u) ==> InBounds(rules, s, actor.org, db, u)
  {
    if op.CreateUser? || op.CreateInvitedUser? {
      CreationBounded(env, rules, s, db, actor, op, u);
    } else if op.ResetPassword? {
      PasswordAltersNothing(env, rules, db, actor, op, u);
      if Rule.Target(rules, db, actor, op.id).Ok? {
        TargetInBounds(rules, s, db, actor, op.id);
      }
    } else if op.SetRole? {
      SetRoleBounded(rules, s, db, actor, op.id, op.role, u);
    } else {
      TargetedBounded(env, rules, s, db, actor, op, u);
    }
  }

  // ---- The coalition's credentials ---------------------------------------------------

  /** The accounts and API keys a coalition can act through. */
  datatype Power = Power(users: set<string>, keys: set<string>)

  /** Power never exceeds the roles of `s`, nor leaves the organization. */
  ghost predicate Secure(rules: Rules, s: iset<Role>, org: string, db: Db, p: Power) {
    && (forall u :: u in p.users && u in db.accounts.users ==>
          db.accounts.users[u].org == org && db.accounts.users[u].role in s)
    && (forall k :: k in p.keys && k in db.accounts.keys ==>
          db.accounts.keys[k].user in p.users && Within(rules, s, db.accounts.keys[k].role))
    && p.users <= db.minted && p.keys <= db.minted
  }

  /** An identity resolved from a credential of the coalition. */
  ghost predicate Wields(p: Power, op: Op, identity: Identity) {
    && op.Sign?
    && (|| (op.login.AuthenticateSession? && identity.user in p.users)
        || (op.login.AuthenticateAPIKey? && op.login.key in p.keys))
  }

  lemma WieldedIsSecure(env: Env, rules: Rules, s: iset<Role>, org: string, db: Db, p: Power, step: Step,
                        identity: Identity)
    requires Secure(rules, s, org, db, p) && Wields(p, step.op, identity)
    requires LoginNext(env, db, step.now, step.actor, step.op.login).1 == Resolved(identity)
    ensures Within(rules, s, identity.role) && identity.org == org && identity.user in p.users
  {
    var u := identity.user;
    assert u in db.accounts.users;
    if step.op.login.AuthenticateSession? {
      assert db.accounts.users[u].role in s && identity.role == db.accounts.users[u].role;
    }
  }

  /** No key is added or given another role or owner. */
  ghost predicate KeysKept(before: Db, after: Db) {
    forall k :: k in after.accounts.keys ==>
      && k in before.accounts.keys
      && after.accounts.keys[k].user == before.accounts.keys[k].user
      && after.accounts.keys[k].role == before.accounts.keys[k].role
  }

  lemma AdminKeepsKeys(env: Env, db: Db, rules: Rules, actor: Identity, op: AdminOp)
    requires !op.MintAPIKey?
    ensures KeysKept(db, AdminNext(env, db, rules, actor, op).0)
  {
    if Frames.Stores(op) {
      Frames.StoringFrame(env, db, rules, actor, op);
    } else if Frames.Targets(op) {
      Frames.TargetedFrame(env, db, rules, actor, op);
    }
  }

  /** A step that adds no key and alters nobody the coalition acts through, or
      alters them within bounds, leaves the coalition's power secure. */
  lemma KeptIsSecure(rules: Rules, s: iset<Role>, org: string, before: Db, after: Db, p: Power, added: set<string>)
    requires Closed(rules, s) && Secure(rules, s, org, before, p) && KeysKept(before, after)
    requires before.minted <= after.minted && added <= after.minted
    requires forall u :: Bounded(rules, s, org, before, after, u)
    requires forall u :: u in added ==> InBounds(rules, s, org, after, u)
    ensures Secure(rules, s, org, after, Power(p.users + added, p.keys))
  {
    forall u | u in p.users + added && u in after.accounts.users
      ensures after.accounts.users[u].org == org && after.accounts.users[u].role in s
    {
      assert Bounded(rules, s, org, before, after, u);
      if u !in added && !Altered(before, after, u) {
        assert before.accounts.users[u].role in s;
      } else {
        assert InBounds(rules, s, org, after, u);
      }
    }
  }

  lemma MintIsSecure(rules: Rules, s: iset<Role>, org: string, db: Db, p: Power, actor: Identity, requested: Role,
                     key: string)
    requires rules.WellFormed() && Secure(rules, s, org, db, p) && Tidy(db)
    requires Within(rules, s, actor.role) && actor.user in p.users
    ensures var (after, outcome) := Rule.MintAPIKey(rules, db, actor, requested, key);
            && Secure(rules, s, org, after, p)
            && (outcome == KeyMinted(key) ==> Secure(rules, s, org, after, Power(p.users, p.keys + {key})))
  {
    KeysStayWithin(rules, s, actor.role, requested);
  }

  /** A key someone else mints is not one of the coalition's. */
  lemma OthersMintIsSecure(rules: Rules, s: iset<Role>, org: string, db: Db, p: Power, actor: Identity,
                           requested: Role, key: string)
    requires Secure(rules, s, org, db, p)
    ensures Secure(rules, s, org, Rule.MintAPIKey(rules, db, actor, requested, key).0, p)
  {
  }

  /** The accounts a step adds to the coalition's: created, or reset by it. */
  function Gained(op: Op, outcome: Outcome): set<string> {
    if op.Admin? && (op.admin.CreateUser? || op.admin.CreateInvitedUser?) && outcome.Created? then {outcome.id}
    else if op.Admin? && op.admin.ResetPassword? && outcome == Done then {op.admin.id}
    else {}
  }

  /** The key a step of the coalition adds. */
  function GainedKey(op: Op, outcome: Outcome, coalition: bool): set<string> {
    if coalition && op.Admin? && op.admin.MintAPIKey? && outcome.KeyMinted? then {op.admin.key} else {}
  }

  function More(p: Power, op: Op, outcome: Outcome, coalition: bool): Power {
    Power(p.users + Gained(op, outcome), p.keys + GainedKey(op, outcome, coalition))
  }

  lemma ManagingIsSecure(env: Env, rules: Rules, s: iset<Role>, db: Db, p: Power, actor: Identity, op: AdminOp)
    requires Closed(rules, s) && Tidy(db) && Secure(rules, s, actor.org, db, p)
    requires Managing(op) && Within(rules, s, actor.role)
    ensures var (after, outcome) := AdminNext(env, db, rules, actor, op);
            Secure(rules, s, actor.org, after, More(p, Admin(op), outcome, true))
  {
    var (after, outcome) := AdminNext(env, db, rules, actor, op);
    AdminGrows(env, db, rules, actor, op);
    AdminKeepsKeys(env, db, rules, actor, op);
    forall u
      ensures Bounded(rules, s, actor.org, db, after, u)
    {
      ManagingBounded(env, rules, s, db, actor, op, u);
    }
    ManagingGains(env, rules, s, db, actor, op);
    KeptIsSecure(rules, s, actor.org, db, after, p, Gained(Admin(op), outcome));
    assert p.keys + {} == p.keys;
  }

  lemma ManagingGains(env: Env, rules: Rules, s: iset<Role>, db: Db, actor: Identity, op: AdminOp)
    requires Tidy(db) && Managing(op) && Within(rules, s, actor.role)
    ensures var (after, outcome) := AdminNext(env, db, rules, actor, op);
            forall u :: u in Gained(Admin(op), outcome) ==> u in after.minted && InBounds(rules, s, actor.org, after, u)
  {
    var (after, outcome) := AdminNext(env, db, rules, actor, op);
    if op.CreateUser? || op.CreateInvitedUser? {
      CreationBounded(env, rules, s, db, actor, op, op.id);
    } else if op.ResetPassword? && outcome == Done {
      AdminGrows(env, db, rules, actor, op);
      ManagingBounded(env, rules, s, db, actor, op, op.id);
      PasswordAltersNothing(env, rules, db, actor, op, op.id);
    }
  }

  lemma OtherAdminIsSecure(env: Env, rules: Rules, s: iset<Role>, org: string, db: Db, p: Power, actor: Identity,
                           op: AdminOp, coalition: bool)
    requires rules.WellFormed() && Closed(rules, s) && Tidy(db) && Secure(rules, s, org, db, p) && !Managing(op)
    requires coalition ==> Within(rules, s, actor.role) && actor.user in p.users
    ensures var (after, outcome) := AdminNext(env, db, rules, actor, op);
            Secure(rules, s, org, after, More(p, Admin(op), outcome, coalition))
  {
    var (after, outcome) := AdminNext(env, db, rules, actor, op);
    assert p.users + {} == p.users && p.keys + {} == p.keys;
    if op.MintAPIKey? && coalition {
      MintIsSecure(rules, s, org, db, p, actor, op.requested, op.key);
    } else if op.MintAPIKey? {
      OthersMintIsSecure(rules, s, org, db, p, actor, op.requested, op.key);
    } else {
      AdminGrows(env, db, rules, actor, op);
      AdminKeepsKeys(env, db, rules, actor, op);
      forall u
        ensures Bounded(rules, s, org, db, after, u)
      {
        PasswordAltersNothing(env, rules, db, actor, op, u);
      }
      KeptIsSecure(rules, s, org, db, after, p, {});
    }
  }

  lemma SameAccountsAreSecure(rules: Rules, s: iset<Role>, org: string, before: Db, after: Db, p: Power)
    requires Closed(rules, s) && Secure(rules, s, org, before, p)
    requires Frames.SameAccounts(before.accounts, after.accounts) && Grows(before, after)
    ensures Secure(rules, s, org, after, p)
    ensures forall u :: !Altered(before, after, u)
  {
  }

  /** Steps that are not account operations. */
  lemma OtherStepIsSecure(env: Env, rules: Rules, s: iset<Role>, org: string, db: Db, p: Power, step: Step)
    requires Closed(rules, s) && Secure(rules, s, org, db, p) && !step.op.Admin?
    ensures Secure(rules, s, org, Next(env, db, step).0, p)
    ensures forall u :: !Altered(db, Next(env, db, step).0, u)
  {
    StepGrows(env, db, step);
    if step.op.Sign? {
      Frames.LoginFrame(env, db, step.now, step.actor, step.op.login);
    } else {
      Frames.FactorFrame(env, db, step.now, step.rules, step.actor, step.op.factor);
    }
    SameAccountsAreSecure(rules, s, org, db, Next(env, db, step).0, p);
  }

  lemma StepIsSecure(env: Env, s: iset<Role>, org: string, db: Db, p: Power, step: Step, coalition: bool)
    requires step.rules.WellFormed() && Closed(step.rules, s) && Tidy(db) && Secure(step.rules, s, org, db, p)
    requires coalition ==>
               Within(step.rules, s, step.actor.role) && step.actor.org == org && step.actor.user in p.users
    requires step.op.Admin? && Managing(step.op.admin) ==> coalition
    ensures var (after, outcome) := Next(env, db, step);
            Secure(step.rules, s, org, after, More(p, step.op, outcome, coalition))
  {
    if !step.op.Admin? {
      OtherStepIsSecure(env, step.rules, s, org, db, p, step);
      assert p.users + {} == p.users && p.keys + {} == p.keys;
    } else if Managing(step.op.admin) {
      ManagingIsSecure(env, step.rules, s, db, p, step.actor, step.op.admin);
    } else {
      OtherAdminIsSecure(env, step.rules, s, org, db, p, step.actor, step.op.admin, coalition);
    }
  }

  // ---- Whole runs ------------------------------------------------------------------

  /** Step i is taken under an identity that an earlier step resolved from a
      credential the coalition then held. */
  ghost predicate ByCoalition(run: Run, powers: seq<Power>, i: nat)
    requires run.Shaped() && |powers| == |run.states| && i < |run.steps|
  {
    exists j :: 0 <= j < i && run.outcomes[j] == Resolved(run.steps[i].actor)
             && Wields(powers[j], run.steps[j].op, run.steps[i].actor)
  }

  /** The coalition's power over the run: it gains every account created or
      reset, and every key minted under one of its own identities. */
  ghost predicate Tracks(run: Run, powers: seq<Power>)
    requires run.Shaped()
  {
    && |powers| == |run.states|
    && forall i :: 0 <= i < |run.steps| ==>
         powers[i + 1] == More(powers[i], run.steps[i].op, run.outcomes[i], ByCoalition(run, powers, i))
  }

  /** A run under one table in which every step that manages accounts is taken
      by the coalition; the other steps are anybody's. */
  ghost predicate CoalitionRun(run: Run, powers: seq<Power>, rules: Rules)
    requires run.Shaped()
  {
    && Tracks(run, powers)
    && (forall i :: 0 <= i < |run.steps| ==> run.steps[i].rules == rules)
    && (forall i :: 0 <= i < |run.steps| && run.steps[i].op.Admin? && Managing(run.steps[i].op.admin) ==>
          ByCoalition(run, powers, i))
  }

  /** The coalition at the start: accounts of one organization and any keys they
      already hold, within the roles of `s`. */
  ghost predicate StartsWith(run: Run, powers: seq<Power>, rules: Rules, s: iset<Role>, org: string)
    requires run.Shaped()
  {
    && run.Valid() && CoalitionRun(run, powers, rules) && rules.WellFormed()
    && Tidy(run.states[0]) && Secure(rules, s, org, run.states[0], powers[0])
  }

  lemma PowerGrows(run: Run, powers: seq<Power>, i: nat, j: nat)
    requires run.Shaped() && Tracks(run, powers) && i <= j < |powers|
    ensures powers[i].users <= powers[j].users
    decreases j
  {
    if i < j {
      PowerGrows(run, powers, i, j - 1);
      assert powers[j - 1 + 1].users == powers[j - 1].users + Gained(run.steps[j - 1].op, run.outcomes[j - 1]);
    }
  }

  /** Every identity the coalition acts under stays within `s`. */
  lemma {:induction false} CoalitionStaysWithin(run: Run, powers: seq<Power>, rules: Rules, s: iset<Role>, org: string,
                                                i: nat)
    requires run.Shaped() && StartsWith(run, powers, rules, s, org) && Closed(rules, s)
    requires i < |run.steps| && ByCoalition(run, powers, i)
    ensures var actor := run.steps[i].actor;
            Within(rules, s, actor.role) && actor.org == org && actor.user in powers[i].users
    decreases i, 0
  {
    var actor := run.steps[i].actor;
    var j: nat :| j < i && run.outcomes[j] == Resolved(actor) && Wields(powers[j], run.steps[j].op, actor);
    SecureThroughout(run, powers, rules, s, org, j);
    assert run.Takes(j);
    WieldedIsSecure(run.env, rules, s, org, run.states[j], powers[j], run.steps[j], actor);
    PowerGrows(run, powers, j, i);
  }

  /** The coalition's power is secure in every state of the run. */
  lemma {:induction false} SecureThroughout(run: Run, powers: seq<Power>, rules: Rules, s: iset<Role>, org: string,
                                            n: nat)
    requires run.Shaped() && StartsWith(run, powers, rules, s, org) && Closed(rules, s) && n < |run.states|
    ensures Secure(rules, s, org, run.states[n], powers[n]) && Tidy(run.states[n])
    decreases n, 1
  {
    RunGrows(run, 0, n);
    if n > 0 {
      var i := n - 1;
      SecureThroughout(run, powers, rules, s, org, i);
      var coalition := ByCoalition(run, powers, i);
      if coalition {
        CoalitionStaysWithin(run, powers, rules, s, org, i);
      }
      StepIsSecure(run.env, s, org, run.states[i], powers[i], run.steps[i], coalition);
      assert run.Takes(i);
    }
  }

  /** One step of a coalition run, seen against any closed set of roles. */
  lemma StepIsBounded(run: Run, powers: seq<Power>, rules: Rules, s: iset<Role>, org: string, i: nat, u: string)
    requires run.Shaped() && StartsWith(run, powers, rules, s, org) && Closed(rules, s) && i < |run.steps|
    ensures Bounded(rules, s, org, run.states[i], run.states[i + 1], u)
    ensures Resets(run.steps[i].op, run.outcomes[i], u) ==> InBounds(rules, s, org, run.states[i], u)
  {
    var step := run.steps[i];
    SecureThroughout(run, powers, rules, s, org, i);
    assert run.Takes(i);
    if !step.op.Admin? {
      OtherStepIsSecure(run.env, rules, s, org, run.states[i], powers[i], step);
    } else if Managing(step.op.admin) {
      CoalitionStaysWithin(run, powers, rules, s, org, i);
      ManagingBounded(run.env, rules, s, run.states[i], step.actor, step.op.admin, u);
    } else {
      PasswordAltersNothing(run.env, rules, run.states[i], step.actor, step.op.admin, u);
    }
  }

  /** The roles the coalition's accounts and keys have at the start. */
  ghost function StartingRoles(db: Db, p: Power): iset<Role> {
    (iset u | u in p.users && u in db.accounts.users :: db.accounts.users[u].role)
    + (iset k | k in p.keys && k in db.accounts.keys :: db.accounts.keys[k].role)
  }

  /** Its accounts are of one organization, and its keys are its accounts'. */
  ghost predicate OwnAndInOrg(db: Db, p: Power, org: string) {
    && (forall u :: u in p.users && u in db.accounts.users ==> db.accounts.users[u].org == org)
    && (forall k :: k in p.keys && k in db.accounts.keys ==> db.accounts.keys[k].user in p.users)
  }

  /** A coalition of accounts of one organization and keys of theirs, under one
      well-formed table. */
  ghost predicate Coalition(run: Run, powers: seq<Power>, rules: Rules, org: string)
    requires run.Shaped()
  {
    && run.Valid() && CoalitionRun(run, powers, rules) && rules.WellFormed()
    && Tidy(run.states[0]) && powers[0].users + powers[0].keys <= run.states[0].minted
    && OwnAndInOrg(run.states[0], powers[0], org)
  }

  lemma AnyClosedSetWillDo(run: Run, powers: seq<Power>, rules: Rules, org: string, s: iset<Role>)
    requires run.Shaped() && Coalition(run, powers, rules, org)
    requires StartingRoles(run.states[0], powers[0]) <= s
    ensures StartsWith(run, powers, rules, s, org)
  {
    forall u | u in powers[0].users && u in run.states[0].accounts.users
      ensures run.states[0].accounts.users[u].role in s
    {
      assert run.states[0].accounts.users[u].role in StartingRoles(run.states[0], powers[0]);
    }
    forall k | k in powers[0].keys && k in run.states[0].accounts.keys
      ensures Within(rules, s, run.states[0].accounts.keys[k].role)
    {
      assert run.states[0].accounts.keys[k].role in StartingRoles(run.states[0], powers[0]);
    }
  }

  /** The account lies in the organization, with a role the coalition's starting
      roles reach. */
  ghost predicate Reachable(rules: Rules, roles: iset<Role>, org: string, db: Db, u: string) {
    u in db.accounts.users ==> db.accounts.users[u].org == org && InReach(rules, roles, db.accounts.users[u].role)
  }

  lemma BoundsAreReachable(rules: Rules, roles: iset<Role>, org: string, db: Db, u: string)
    requires forall s: iset<Role> :: roles <= s && Closed(rules, s) ==> InBounds(rules, s, org, db, u)
    requires exists s: iset<Role> :: roles <= s && Closed(rules, s)
    ensures Reachable(rules, roles, org, db, u)
  {
    if u in db.accounts.users {
      forall s: iset<Role> | roles <= s && Closed(rules, s)
        ensures db.accounts.users[u].role in s && db.accounts.users[u].org == org
      {
        assert InBounds(rules, s, org, db, u);
      }
    }
  }

  lemma EverythingIsClosed(rules: Rules, roles: iset<Role>)
    ensures exists s: iset<Role> :: roles <= s && Closed(rules, s)
  {
    var all := iset r: Role | rules.Valid(r) || !rules.Valid(r);
    assert roles <= all && Closed(rules, all);
  }

  /** Privilege closure. In every run, every account the coalition creates,
      deletes, alters or resets lies in its own organization and had, and gets,
      a role in Reach of the roles it began with. */
  lemma AlteredOnlyWithinReach(run: Run, powers: seq<Power>, rules: Rules, org: string, i: nat, u: string)
    requires run.Shaped() && Coalition(run, powers, rules, org) && i < |run.steps|
    requires Altered(run.states[i], run.states[i + 1], u) || Resets(run.steps[i].op, run.outcomes[i], u)
    ensures var roles := StartingRoles(run.states[0], powers[0]);
            && Reachable(rules, roles, org, run.states[i], u)
            && (Altered(run.states[i], run.states[i + 1], u) ==> Reachable(rules, roles, org, run.states[i + 1], u))
  {
    var roles := StartingRoles(run.states[0], powers[0]);
    forall s: iset<Role> | roles <= s && Closed(rules, s)
      ensures InBounds(rules, s, org, run.states[i], u)
      ensures Altered(run.states[i], run.states[i + 1], u) ==> InBounds(rules, s, org, run.states[i + 1], u)
    {
      AnyClosedSetWillDo(run, powers, rules, org, s);
      StepIsBounded(run, powers, rules, s, org, i, u);
    }
    EverythingIsClosed(rules, roles);
    BoundsAreReachable(rules, roles, org, run.states[i], u);
    if Altered(run.states[i], run.states[i + 1], u) {
      BoundsAreReachable(rules, roles, org, run.states[i + 1], u);
    }
  }

  // ---- Guarded roles ---------------------------------------------------------------

  /** None of the roles carries a permission that guards anything. */
  ghost predicate NoGuards(rules: Rules, roles: iset<Role>) {
    forall r, q :: r in roles && q in rules.st.guards ==> !rules.Can(r, rules.st.guards[q])
  }

  lemma OnlyTheGuardedManageTheGuarded(rules: Rules, r: Role, q: Role)
    requires rules.WellFormed()
    ensures MayManage(rules, r, q) && rules.Privileged(q) ==>
              rules.Privileged(r) && rules.Can(r, rules.st.guards[q])
  {
    if q in rules.st.guards {
      assert HolderOk(rules, rules.st.guards, r, rules.st.guards[q]);
    }
  }

  /** The construction check at work: without a guard permission to begin with,
      a coalition reaches no guarded role, since whoever carries one is guarded. */
  lemma NoGuardedRoleReached(rules: Rules, roles: iset<Role>, s: iset<Role>)
    requires rules.WellFormed() && NoGuards(rules, roles)
    requires s == roles + iset q: Role | !rules.Privileged(q)
    ensures Closed(rules, s)
    ensures forall q :: Reached(rules, s, q) ==> !rules.Privileged(q)
  {
    forall q | Reached(rules, s, q)
      ensures !rules.Privileged(q)
    {
      var r :| r in s && MayManage(rules, r, q);
      OnlyTheGuardedManageTheGuarded(rules, r, q);
    }
  }

  /** A coalition starting with no guard permission leaves every guarded account
      untouched for ever: as it was, and never reset. */
  lemma {:induction false} GuardedAccountsUntouched(run: Run, powers: seq<Power>, rules: Rules, org: string, n: nat,
                                                    u: string)
    requires run.Shaped() && Coalition(run, powers, rules, org) && n < |run.states|
    requires NoGuards(rules, StartingRoles(run.states[0], powers[0]))
    requires u in run.states[0].accounts.users && rules.Privileged(run.states[0].accounts.users[u].role)
    ensures u in run.states[n].accounts.users
    ensures Frames.SameUser(run.states[0].accounts.users[u], run.states[n].accounts.users[u])
    ensures n < |run.steps| ==> !Resets(run.steps[n].op, run.outcomes[n], u)
  {
    var roles := StartingRoles(run.states[0], powers[0]);
    var s := roles + iset q: Role | !rules.Privileged(q);
    NoGuardedRoleReached(rules, roles, s);
    AnyClosedSetWillDo(run, powers, rules, org, s);
    if n > 0 {
      GuardedAccountsUntouched(run, powers, rules, org, n - 1, u);
      StepIsBounded(run, powers, rules, s, org, n - 1, u);
    }
    if n < |run.steps| {
      StepIsBounded(run, powers, rules, s, org, n, u);
    }
  }
}
