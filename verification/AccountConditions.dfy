/** Exactly when each account operation goes through, in terms of the tables alone
    (admin.go:230-527, 538-811); `Ledger` says what it then does. */
module AccountConditions {
  import opened Prelude
  import opened Roles
  import opened State
  import opened System
  import opened Text
  import Addresses
  import PasswordPolicy
  import Rule = AccountRules

  // ---- Who may do what to whom ----------------------------------------------------------

  predicate Carries(rules: Rules, role: Role, p: Permission) {
    role in rules.st.perms && p in rules.st.perms[role]
  }

  /** The role is unguarded, or the caller's carries its guard. */
  predicate MayTouch(rules: Rules, caller: Role, role: Role) {
    role in rules.st.guards ==> Carries(rules, caller, rules.st.guards[role])
  }

  /** The role is one an organization must not run out of. */
  predicate MustBeHeld(rules: Rules, role: Role) {
    if rules.st.protectedRoles == [] then role == rules.adminRole else role in rules.st.protectedRoles
  }

  /** A caller who manages users, on somebody else's account of the same
      organization, with a role the caller may touch. */
  predicate MayActOn(rules: Rules, db: Db, actor: Identity, id: string) {
    && Carries(rules, actor.role, rules.manageUsers)
    && id != actor.user
    && id in db.accounts.users
    && db.accounts.users[id].org == actor.org
    && MayTouch(rules, actor.role, db.accounts.users[id].role)
  }

  /** Another enabled account of the organization has the same role. */
  predicate AnotherHolds(db: Db, id: string)
    requires id in db.accounts.users
  {
    exists other :: other in db.accounts.users && other != id && !db.accounts.users[other].disabled
                 && db.accounts.users[other].org == db.accounts.users[id].org
                 && db.accounts.users[other].role == db.accounts.users[id].role
  }

  /** Taking the account out of its role leaves no protected role empty. */
  predicate CanBeSpared(rules: Rules, db: Db, id: string)
    requires id in db.accounts.users
  {
    !MustBeHeld(rules, db.accounts.users[id].role) || db.accounts.users[id].disabled || AnotherHolds(db, id)
  }

  // ---- Standing ---------------------------------------------------------------------------

  /** A re-role goes through exactly when the role exists, the caller may act on the
      account, and it already has that role or the caller may touch the new one and
      the account can be spared from the old one. */
  lemma ReRoledIff(env: Env, db: Db, rules: Rules, actor: Identity, id: string, role: Role)
    ensures AdminNext(env, db, rules, actor, SetRole(id, role)).1 == Done
       <==> && role in rules.st.perms && MayActOn(rules, db, actor, id)
            && (db.accounts.users[id].role == role
                || (MayTouch(rules, actor.role, role) && CanBeSpared(rules, db, id)))
  {
  }

  lemma DisabledIff(env: Env, db: Db, rules: Rules, actor: Identity, id: string)
    ensures AdminNext(env, db, rules, actor, DisableUser(id)).1 == Done
       <==> MayActOn(rules, db, actor, id) && CanBeSpared(rules, db, id)
  {
  }

  lemma EnabledIff(env: Env, db: Db, rules: Rules, actor: Identity, id: string)
    ensures AdminNext(env, db, rules, actor, EnableUser(id)).1 == Done <==> MayActOn(rules, db, actor, id)
  {
  }

  /** A deletion takes the account, its address, its keys and its sessions, and
      nothing of any other account. */
  lemma DeletedIff(env: Env, db: Db, rules: Rules, actor: Identity, id: string)
    ensures var (after, outcome) := AdminNext(env, db, rules, actor, DeleteUser(id));
            && (outcome == Done <==> MayActOn(rules, db, actor, id) && CanBeSpared(rules, db, id))
            && (outcome == Done ==>
                  && after.accounts.users == db.accounts.users - {id}
                  && after.accounts.emails == db.accounts.emails - {Lower(db.accounts.users[id].email)}
                  && after.accounts.keys
                     == (map k | k in db.accounts.keys && db.accounts.keys[k].user != id :: db.accounts.keys[k])
                  && after.sessions == (map t | t in db.sessions && db.sessions[t].user != id :: db.sessions[t]))
  {
  }

  /** What a permitted re-role, disabling or enabling leaves in the row. */
  lemma StandingTakesEffect(env: Env, db: Db, rules: Rules, actor: Identity, op: AdminOp)
    requires op.SetRole? || op.DisableUser? || op.EnableUser?
    requires AdminNext(env, db, rules, actor, op).1 == Done
    ensures var after := AdminNext(env, db, rules, actor, op).0;
            && op.id in db.accounts.users && op.id in after.accounts.users
            && var was, u := db.accounts.users[op.id], after.accounts.users[op.id];
               match op
               case SetRole(_, role) => u == was.(role := role)
               case DisableUser(_) => u == was.(disabled := true)
               case _ => u == was.(disabled := false)
  {
  }

  /** Why an account operation is refused: each reason exactly when it applies and
      none before it does. */
  lemma GateRefusals(env: Env, db: Db, rules: Rules, actor: Identity, op: AdminOp)
    requires op.DisableUser? || op.EnableUser? || op.DeleteUser? || op.ResetPassword?
    ensures var outcome := AdminNext(env, db, rules, actor, op).1;
            var manages := Carries(rules, actor.role, rules.manageUsers) && op.id != actor.user;
            var found := op.id in db.accounts.users && db.accounts.users[op.id].org == actor.org;
            && (outcome == Refused(NotPermitted) <==> !manages)
            && (outcome == Refused(NotFound) <==> manages && !found)
            && (outcome == Refused(PrivilegedTarget) <==>
                  manages && found && !MayTouch(rules, actor.role, db.accounts.users[op.id].role))
            && (outcome == Refused(LastAdmin) <==>
                  (op.DisableUser? || op.DeleteUser?) && MayActOn(rules, db, actor, op.id)
                  && !CanBeSpared(rules, db, op.id))
  {
  }

  /** A refused account operation changes nothing. */
  lemma RefusedChangesNothing(env: Env, db: Db, rules: Rules, actor: Identity, op: AdminOp)
    requires AdminNext(env, db, rules, actor, op).1.Refused?
    ensures AdminNext(env, db, rules, actor, op).0 == db
  {
  }

  // ---- Creation -----------------------------------------------------------------------------

  /** The caller may create an account with this address and role. */
  predicate MayCreate(rules: Rules, actor: Identity, email: string, role: Role) {
    && Carries(rules, actor.role, rules.manageUsers) && role in rules.st.perms && MayTouch(rules, actor.role, role)
    && Trim(email) != ""
  }

  /** Nobody has the address, in any letter case. */
  ghost predicate AddressFree(db: Db, email: string) {
    forall other :: other in db.accounts.users ==> Lower(db.accounts.users[other].email) != Lower(Trim(email))
  }

  lemma FreeIsUnindexed(db: Db, email: string)
    requires Addresses.Indexed(db)
    ensures AddressFree(db, email) <==> Lower(Trim(email)) !in db.accounts.emails
  {
    var address := Lower(Trim(email));
    assert Addresses.Leads(db, address);
    forall other | other in db.accounts.users && Lower(db.accounts.users[other].email) == address
      ensures address in db.accounts.emails
    {
      assert Addresses.Filed(db, other);
    }
  }

  /** An account is created with a password exactly when its creator may, the
      organization's policy accepts the password, nobody has the address, and the id
      was never drawn. */
  lemma CreatedIff(env: Env, db: Db, rules: Rules, actor: Identity, email: string, name: string, role: Role,
                   password: string, salt: Salt, id: string)
    requires Addresses.Indexed(db)
    ensures var (after, outcome) :=
              AdminNext(env, db, rules, actor, CreateUser(email, name, role, password, salt, id));
            && (outcome == Created(id) <==>
                  && MayCreate(rules, actor, email, role) && AddressFree(db, email) && id !in db.minted
                  && env.acceptable(PolicyFor(db, actor.org), password, [Trim(email), name]))
            && (outcome == Created(id) ==>
                  after.accounts.users
                    == db.accounts.users[id := User(actor.org, Trim(email), Trim(name), env.hash(password, salt), role,
                                                    false)])
  {
    FreeIsUnindexed(db, email);
  }

  lemma InvitedIff(env: Env, db: Db, rules: Rules, actor: Identity, email: string, name: string, role: Role,
                   id: string)
    requires Addresses.Indexed(db)
    ensures var (after, outcome) := AdminNext(env, db, rules, actor, CreateInvitedUser(email, name, role, id));
            && (outcome == Created(id) <==>
                  MayCreate(rules, actor, email, role) && AddressFree(db, email) && id !in db.minted)
            && (outcome == Created(id) ==>
                  after.accounts.users
                    == db.accounts.users[id := User(actor.org, Trim(email), Trim(name), "", role, false)])
  {
    FreeIsUnindexed(db, email);
  }

  // ---- Passwords ------------------------------------------------------------------------------

  /** One of the `depth` newest recorded hashes verifies the password. */
  predicate AmongRecent(env: Env, rows: seq<string>, depth: int, password: string) {
    exists k :: 0 <= k < |rows| && k < depth && env.verify(rows[k], password) == Some(true)
  }

  /** The account's policy accepts the password and it is not among the recent ones. */
  predicate MayBecome(env: Env, db: Db, id: string, next: string)
    requires id in db.accounts.users
  {
    var u := db.accounts.users[id];
    && env.acceptable(PolicyFor(db, u.org), next, [u.email, u.name])
    && !AmongRecent(env, HistoryOf(db, id), PolicyFor(db, u.org).historyDepth, next)
  }

  /** The rows are the outgoing hash and then the earlier rows, as many as are kept. */
  ghost predicate Pushed(earlier: seq<string>, outgoing: string, depth: int, rows: seq<string>) {
    && |rows| == (if depth <= 0 then 0 else if |earlier| < depth then |earlier| + 1 else depth)
    && forall k :: 0 <= k < |rows| ==> rows[k] == if k == 0 then outgoing else earlier[k - 1]
  }

  lemma NewestIsPushed(earlier: seq<string>, outgoing: string, depth: int)
    ensures Pushed(earlier, outgoing, depth, Newest([outgoing] + earlier, depth))
  {
  }

  /** What a change of password leaves: the new hash, the old one pushed on the
      history, no session of the account unrevoked, and every other account's hash,
      history and sessions as they were. */
  ghost predicate PasswordIs(env: Env, before: Db, after: Db, id: string, next: string, salt: Salt)
    requires id in before.accounts.users
  {
    var depth := PolicyFor(before, before.accounts.users[id].org).historyDepth;
    && id in after.accounts.users
    && after.accounts.users == before.accounts.users[id := before.accounts.users[id].(hash := env.hash(next, salt))]
    && Pushed(HistoryOf(before, id), before.accounts.users[id].hash, depth, HistoryOf(after, id))
    && (forall other :: other != id ==> HistoryOf(after, other) == HistoryOf(before, other))
    && after.sessions.Keys == before.sessions.Keys
    && (forall t :: t in before.sessions ==>
          after.sessions[t] == if before.sessions[t].user == id then before.sessions[t].(revoked := true)
                               else before.sessions[t])
  }

  lemma ReusedIsRecent(env: Env, rows: seq<string>, depth: int, password: string)
    ensures Rule.Reused(env, Newest(rows, depth), password) <==> AmongRecent(env, rows, depth, password)
  {
    var newest := Newest(rows, depth);
    forall k | 0 <= k < |rows| && k < depth && env.verify(rows[k], password) == Some(true)
      ensures Rule.Reused(env, newest, password)
    {
      assert newest[k] == rows[k];
    }
  }

  lemma ReplacedIff(env: Env, db: Db, id: string, next: string, salt: Salt)
    requires id in db.accounts.users
    ensures var (after, outcome) := Rule.Replace(env, db, id, next, salt);
            && (outcome == Done <==> MayBecome(env, db, id, next))
            && (outcome == Done ==> PasswordIs(env, db, after, id, next, salt))
  {
    var depth := PolicyFor(db, db.accounts.users[id].org).historyDepth;
    ReusedIsRecent(env, HistoryOf(db, id), depth, next);
    NewestIsPushed(HistoryOf(db, id), db.accounts.users[id].hash, depth);
  }

  /** A caller changes the password of its own account exactly when it is signed in
      to one that has a password, gives that password, and the new one may become it. */
  lemma ChangedIff(env: Env, db: Db, rules: Rules, actor: Identity, current: string, next: string, salt: Salt)
    ensures var (after, outcome) := AdminNext(env, db, rules, actor, ChangePassword(current, next, salt));
            && (outcome == Done <==>
                  && actor.user != "" && actor.user in db.accounts.users && db.accounts.users[actor.user].hash != ""
                  && env.verify(db.accounts.users[actor.user].hash, current) == Some(true)
                  && MayBecome(env, db, actor.user, next))
            && (outcome == Done ==> PasswordIs(env, db, after, actor.user, next, salt))
  {
    if actor.user in db.accounts.users {
      ReplacedIff(env, db, actor.user, next, salt);
    }
  }

  lemma ResetIff(env: Env, db: Db, rules: Rules, actor: Identity, id: string, next: string, salt: Salt)
    ensures var (after, outcome) := AdminNext(env, db, rules, actor, ResetPassword(id, next, salt));
            && (outcome == Done <==> MayActOn(rules, db, actor, id) && MayBecome(env, db, id, next))
            && (outcome == Done ==> PasswordIs(env, db, after, id, next, salt))
  {
    if id in db.accounts.users {
      ReplacedIff(env, db, id, next, salt);
    }
  }

  /** A first password: on an enabled account that has none, if the policy accepts it;
      no recent passwords are looked at, and no session is touched. */
  lemma InitialSetIff(env: Env, db: Db, rules: Rules, actor: Identity, id: string, password: string, salt: Salt)
    ensures var (after, outcome) := AdminNext(env, db, rules, actor, SetInitialPassword(id, password, salt));
            && (outcome == Done <==>
                  && id in db.accounts.users && !db.accounts.users[id].disabled && db.accounts.users[id].hash == ""
                  && env.acceptable(PolicyFor(db, db.accounts.users[id].org), password,
                                    [db.accounts.users[id].email, db.accounts.users[id].name]))
            && (outcome == Done ==>
                  && after.accounts.users
                     == db.accounts.users[id := db.accounts.users[id].(hash := env.hash(password, salt))]
                  && after.sessions == db.sessions)
  {
  }

  /** Until an organization saves a policy of its own: twelve characters, all four
      classes, the dictionary, five passwords remembered and no expiry. */
  lemma DefaultPolicy(db: Db, org: string)
    requires org !in db.accounts.policies
    ensures var p := PolicyFor(db, org);
            && p.minLength == 12 && p.historyDepth == 5 && p.maxAgeDays == 0
            && p.requireUpper && p.requireLower && p.requireDigit && p.requireSymbol && p.checkDictionary
  {
  }

  // ---- Keys and policies ------------------------------------------------------------------------

  lemma MintedIff(env: Env, db: Db, rules: Rules, actor: Identity, asked: Role, key: string)
    ensures AdminNext(env, db, rules, actor, MintAPIKey(asked, key)).1 == KeyMinted(key)
       <==> actor.user != "" && key !in db.minted
  {
  }

  lemma RevokedIff(env: Env, db: Db, rules: Rules, actor: Identity, key: string)
    ensures AdminNext(env, db, rules, actor, RevokeAPIKey(key)).1 == Done
       <==> actor.user != "" && key in db.accounts.keys && db.accounts.keys[key].user == actor.user
  {
  }

  /** A policy is saved exactly when the caller manages users and its bounds are in
      range. */
  lemma PolicySavedIff(env: Env, db: Db, rules: Rules, actor: Identity, policy: PasswordPolicy.Policy)
    ensures var (after, outcome) := AdminNext(env, db, rules, actor, SetPasswordPolicy(policy));
            && (outcome == Done <==>
                  && Carries(rules, actor.role, rules.manageUsers)
                  && policy.minLength >= 12 && policy.minLength <= 64
                  && policy.historyDepth >= 0 && policy.historyDepth <= 10
                  && policy.maxAgeDays >= 0 && policy.maxAgeDays <= 3650)
            && (outcome == Done ==> PolicyFor(after, actor.org) == policy)
            && (forall org :: org != actor.org ==> PolicyFor(after, org) == PolicyFor(db, org))
  {
  }
}
