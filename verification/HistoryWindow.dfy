/** Password history as a sliding window over a run (admin.go:192-235, 574-691;
    policy.go:254-259; authenticator.go:246-253). */
module HistoryWindow {
  import opened Prelude
  import opened Roles
  import opened State
  import opened System
  import opened Minted
  import opened Text
  import Rule = AccountRules
  import Logins = LoginRules
  import Frames

  /** What is asked of the hash: a stored hash verifies the password it was made
      from and no other password in use, and no password verifies against "". */
  ghost predicate Hashing(env: Env, used: set<string>) {
    && (forall p, salt: Salt :: env.verify(env.hash(p, salt), p) == Some(true))
    && (forall p :: env.verify("", p) != Some(true))
    && (forall p, q, salt: Salt :: p in used && q in used && env.verify(env.hash(p, salt), q) == Some(true) ==> p == q)
  }

  ghost predicate IsHashOf(env: Env, hash: string, password: string) {
    exists salt: Salt :: hash == env.hash(password, salt)
  }

  lemma HashVerifiesOnly(env: Env, used: set<string>, hash: string, p: string, q: string)
    requires Hashing(env, used) && p in used && q in used && IsHashOf(env, hash, p)
    ensures env.verify(hash, q) == Some(true) <==> p == q
  {
  }

  /** A corrupt row never blocks a change: putting one anywhere in the history
      leaves the verdict on every password what it was. */
  lemma CorruptRowNeverBlocks(env: Env, newer: seq<string>, corrupt: string, older: seq<string>, next: string)
    requires env.verify(corrupt, next).None?
    ensures Rule.Reused(env, newer + [corrupt] + older, next) <==> Rule.Reused(env, newer + older, next)
  {
    var with, without := newer + [corrupt] + older, newer + older;
    forall k | 0 <= k < |with| && env.verify(with[k], next) == Some(true)
      ensures Rule.Reused(env, without, next)
    {
      assert without[if k < |newer| then k else k - 1] == with[k];
    }
    forall k | 0 <= k < |without| && env.verify(without[k], next) == Some(true)
      ensures Rule.Reused(env, with, next)
    {
      assert with[if k < |newer| then k else k + 1] == without[k];
    }
  }

  // ---- The invariant -----------------------------------------------------------------

  /** `passwords`, newest first, has no repeat two to d + 1 places apart. */
  ghost predicate Window(passwords: seq<string>, d: int) {
    forall a, b :: 0 <= a < b < |passwords| && 2 <= b - a <= d + 1 ==> passwords[a] != passwords[b]
  }

  ghost predicate FiledAt(env: Env, rows: seq<string>, passwords: seq<string>, k: nat)
    requires k + 1 < |passwords|
  {
    k < |rows| && IsHashOf(env, rows[k], passwords[k + 1])
  }

  /** The account's hash is one of the newest password, and row k of its history
      one of the password k + 1 changes back, as far as the depth goes. When the
      passwords are all the account ever had, its other rows are empty. */
  ghost predicate Filed(env: Env, hash: string, rows: seq<string>, passwords: seq<string>, d: int, all: bool) {
    && (passwords != [] ==> IsHashOf(env, hash, passwords[0]))
    && (forall k :: 0 <= k < |passwords| - 1 && k < d ==> FiledAt(env, rows, passwords, k))
    && (all && passwords == [] ==> hash == "")
    && (all ==> forall k :: 0 <= k && |passwords| - 1 <= k < |rows| ==> rows[k] == "")
  }

  lemma FiledAfterChange(env: Env, hash: string, rows: seq<string>, passwords: seq<string>, d: int, all: bool,
                         next: string, renewed: string)
    requires d >= 1 && Filed(env, hash, rows, passwords, d, all) && IsHashOf(env, renewed, next)
    requires all && passwords == [] ==> rows == []
    ensures Filed(env, renewed, Newest([hash] + rows, d), [next] + passwords, d, all)
  {
    var filed := Newest([hash] + rows, d);
    forall k | 0 <= k < |[next] + passwords| - 1 && k < d
      ensures FiledAt(env, filed, [next] + passwords, k)
    {
      assert ([next] + passwords)[k + 1] == passwords[k];
      if k > 0 {
        assert FiledAt(env, rows, passwords, k - 1);
        assert ([hash] + rows)[k] == rows[k - 1];
      }
    }
    forall k | all && 0 <= k && |[next] + passwords| - 1 <= k < |filed|
      ensures filed[k] == ""
    {
      assert filed[k] == ([hash] + rows)[k];
      assert k > 0 ==> filed[k] == rows[k - 1];
    }
  }

  /** One of the d passwords before the current one, newest first. */
  ghost predicate OneOfTheLast(passwords: seq<string>, d: int, next: string) {
    exists k :: 1 <= k <= d && k < |passwords| && passwords[k] == next
  }

  /** Among the passwords in use, exactly those of the last d rows are refused. */
  lemma ReusedExactly(env: Env, used: set<string>, hash: string, rows: seq<string>, passwords: seq<string>, d: int,
                      all: bool, next: string)
    requires Hashing(env, used) && d >= 1 && Filed(env, hash, rows, passwords, d, all)
    requires next in used && forall k :: 0 <= k < |passwords| ==> passwords[k] in used
    ensures OneOfTheLast(passwords, d, next) ==> Rule.Reused(env, Newest(rows, d), next)
    ensures all && Rule.Reused(env, Newest(rows, d), next) ==> OneOfTheLast(passwords, d, next)
  {
    if k :| 1 <= k <= d && k < |passwords| && passwords[k] == next {
      assert FiledAt(env, rows, passwords, k - 1);
      HashVerifiesOnly(env, used, rows[k - 1], passwords[k], next);
      assert Newest(rows, d)[k - 1] == rows[k - 1];
    }
    if all && Rule.Reused(env, Newest(rows, d), next) {
      var k :| 0 <= k < |Newest(rows, d)| && env.verify(Newest(rows, d)[k], next) == Some(true);
      assert Newest(rows, d)[k] == rows[k];
      if k < |passwords| - 1 {
        assert FiledAt(env, rows, passwords, k);
        HashVerifiesOnly(env, used, rows[k], passwords[k + 1], next);
      }
    }
  }

  lemma WindowAfterChange(passwords: seq<string>, d: int, next: string)
    requires Window(passwords, d) && !OneOfTheLast(passwords, d, next)
    ensures Window([next] + passwords, d)
  {
    var given := [next] + passwords;
    forall a, b | 0 <= a < b < |given| && 2 <= b - a <= d + 1
      ensures given[a] != given[b]
    {
      assert given[b] == passwords[b - 1];
      if a > 0 {
        assert given[a] == passwords[a - 1];
      }
    }
  }

  /** The state of an account whose passwords, newest first, have been these: all
      of them, or those since some moment. */
  ghost predicate Good(env: Env, db: Db, id: string, passwords: seq<string>, d: int, all: bool) {
    && Window(passwords, d)
    && (passwords != [] ==> id in db.minted)
    && (all && passwords == [] ==> HistoryOf(db, id) == [])
    && (id in db.accounts.users ==> Filed(env, db.accounts.users[id].hash, HistoryOf(db, id), passwords, d, all))
  }

  /** The passwords are among those in use. */
  ghost predicate InUse(passwords: seq<string>, used: set<string>) {
    forall k :: 0 <= k < |passwords| ==> passwords[k] in used
  }

  /** The organization's policy keeps d passwords. */
  predicate DepthIs(db: Db, id: string, d: int) {
    id in db.accounts.users ==> PolicyFor(db, db.accounts.users[id].org).historyDepth == d
  }

  // ---- One step ----------------------------------------------------------------------

  /** The password a step gives the account, if it gives it one. */
  function Given(step: Step, outcome: Outcome, id: string): Option<string> {
    if !step.op.Admin? then None
    else
      match step.op.admin
      case CreateUser(_, _, _, password, _, _) => if outcome == Created(id) then Some(password) else None
      case SetInitialPassword(target, password, _) => if target == id && outcome == Done then Some(password) else None
      case ChangePassword(_, next, _) => if step.actor.user == id && outcome == Done then Some(next) else None
      case ResetPassword(target, next, _) => if target == id && outcome == Done then Some(next) else None
      case _ => None
  }

  function Extended(passwords: seq<string>, given: Option<string>): seq<string> {
    if given.Some? then [given.value] + passwords else passwords
  }

  lemma ReplaceIsGood(env: Env, used: set<string>, db: Db, target: string, next: string, salt: Salt, id: string,
                      passwords: seq<string>, d: int, all: bool)
    requires Hashing(env, used) && d >= 1 && target in db.accounts.users && Tidy(db)
    requires Good(env, db, id, passwords, d, all) && DepthIs(db, id, d) && InUse(passwords, used)
    requires target == id && Rule.Replace(env, db, target, next, salt).1 == Done ==> next in used
    ensures var (after, outcome) := Rule.Replace(env, db, target, next, salt);
            Good(env, after, id,
                 Extended(passwords, if target == id && outcome == Done then Some(next) else None), d, all)
  {
    if target == id && Rule.Replace(env, db, target, next, salt).1 == Done {
      var hash, rows := db.accounts.users[id].hash, HistoryOf(db, id);
      FiledAfterChange(env, hash, rows, passwords, d, all, next, env.hash(next, salt));
      ReusedExactly(env, used, hash, rows, passwords, d, all, next);
      WindowAfterChange(passwords, d, next);
    }
  }

  lemma InitialIsGood(env: Env, used: set<string>, db: Db, target: string, password: string, salt: Salt, id: string,
                      passwords: seq<string>, d: int, all: bool)
    requires Hashing(env, used) && Tidy(db) && Good(env, db, id, passwords, d, all)
    ensures var (after, outcome) := Rule.SetInitialPassword(env, db, target, password, salt);
            Good(env, after, id,
                 Extended(passwords, if target == id && outcome == Done then Some(password) else None), d, all)
  {
    if target == id && id in db.accounts.users && db.accounts.users[id].hash == "" {
      assert passwords == [];
    }
  }

  lemma InsertIsGood(env: Env, db: Db, added: string, u: User, id: string, passwords: seq<string>, d: int, all: bool,
                     given: Option<string>)
    requires Tidy(db) && Good(env, db, id, passwords, d, all)
    requires if given.Some? then IsHashOf(env, u.hash, given.value) else u.hash == ""
    ensures var (after, outcome) := Rule.Insert(db, added, u);
            Good(env, after, id, Extended(passwords, if outcome == Created(id) then given else None), d, all)
  {
    var (after, outcome) := Rule.Insert(db, added, u);
    if outcome == Created(id) {
      assert passwords == [];
    }
  }

  lemma CreateIsGood(env: Env, used: set<string>, db: Db, rules: Rules, actor: Identity, email: string, name: string,
                     role: Role, password: string, salt: Salt, added: string, id: string, passwords: seq<string>,
                     d: int, all: bool)
    requires Hashing(env, used) && Tidy(db) && Good(env, db, id, passwords, d, all)
    ensures var (after, outcome) := Rule.CreateUser(env, rules, db, actor, email, name, role, password, salt, added);
            Good(env, after, id, Extended(passwords, if outcome == Created(id) then Some(password) else None), d, all)
  {
    InsertIsGood(env, db, added, User(actor.org, Trim(email), Trim(name), env.hash(password, salt), role, false),
                 id, passwords, d, all, Some(password));
  }

  lemma ChangeIsGood(env: Env, used: set<string>, db: Db, actor: Identity, current: string, next: string, salt: Salt,
                     id: string, passwords: seq<string>, d: int, all: bool)
    requires Hashing(env, used) && d >= 1 && Tidy(db) && InUse(passwords, used)
    requires Good(env, db, id, passwords, d, all) && DepthIs(db, id, d)
    requires actor.user == id && Rule.ChangePassword(env, db, actor, current, next, salt).1 == Done ==> next in used
    ensures var (after, outcome) := Rule.ChangePassword(env, db, actor, current, next, salt);
            Good(env, after, id,
                 Extended(passwords, if actor.user == id && outcome == Done then Some(next) else None), d, all)
  {
    if Rule.ChangePassword(env, db, actor, current, next, salt).1 == Done {
      ReplaceIsGood(env, used, db, actor.user, next, salt, id, passwords, d, all);
    }
  }

  lemma ResetIsGood(env: Env, used: set<string>, db: Db, rules: Rules, actor: Identity, target: string, next: string,
                    salt: Salt, id: string, passwords: seq<string>, d: int, all: bool)
    requires Hashing(env, used) && d >= 1 && Tidy(db) && InUse(passwords, used)
    requires Good(env, db, id, passwords, d, all) && DepthIs(db, id, d)
    requires target == id && Rule.ResetPassword(env, rules, db, actor, target, next, salt).1 == Done ==> next in used
    ensures var (after, outcome) := Rule.ResetPassword(env, rules, db, actor, target, next, salt);
            Good(env, after, id,
                 Extended(passwords, if target == id && outcome == Done then Some(next) else None), d, all)
  {
    if Rule.ResetPassword(env, rules, db, actor, target, next, salt).1 == Done {
      ReplaceIsGood(env, used, db, target, next, salt, id, passwords, d, all);
    }
  }

  /** The account has the hash and the history it had. */
  ghost predicate HashKept(before: Db, after: Db, id: string) {
    && after.accounts.history == before.accounts.history
    && (id in after.accounts.users ==>
          id in before.accounts.users && after.accounts.users[id].hash == before.accounts.users[id].hash)
  }

  lemma TargetedKeepHashes(env: Env, db: Db, rules: Rules, actor: Identity, op: AdminOp, id: string)
    requires op.DisableUser? || op.EnableUser? || op.DeleteUser? || op.SetRole?
    ensures HashKept(db, AdminNext(env, db, rules, actor, op).0, id)
  {
  }

  lemma InviteIsGood(env: Env, db: Db, rules: Rules, actor: Identity, email: string, name: string, role: Role,
                     added: string, id: string, passwords: seq<string>, d: int, all: bool)
    requires Tidy(db) && Good(env, db, id, passwords, d, all)
    ensures Good(env, Rule.CreateInvitedUser(rules, db, actor, email, name, role, added).0, id, passwords, d, all)
  {
    InsertIsGood(env, db, added, User(actor.org, Trim(email), Trim(name), "", role, false), id, passwords, d, all,
                 None);
  }

  /** Operations that give nobody a password. */
  lemma OthersAreGood(env: Env, db: Db, rules: Rules, actor: Identity, op: AdminOp, id: string,
                      passwords: seq<string>, d: int, all: bool)
    requires Tidy(db) && Good(env, db, id, passwords, d, all)
    requires !op.CreateUser? && !op.SetInitialPassword? && !op.ChangePassword? && !op.ResetPassword?
    ensures Good(env, AdminNext(env, db, rules, actor, op).0, id, passwords, d, all)
  {
    if op.CreateInvitedUser? {
      InviteIsGood(env, db, rules, actor, op.email, op.name, op.role, op.id, id, passwords, d, all);
    } else {
      AdminGrows(env, db, rules, actor, op);
      if op.DisableUser? || op.EnableUser? || op.DeleteUser? || op.SetRole? {
        TargetedKeepHashes(env, db, rules, actor, op, id);
      }
    }
  }

  lemma AdminIsGood(env: Env, used: set<string>, db: Db, step: Step, id: string, passwords: seq<string>, d: int,
                    all: bool)
    requires Hashing(env, used) && d >= 1 && Tidy(db) && step.op.Admin?
    requires Good(env, db, id, passwords, d, all) && DepthIs(db, id, d) && InUse(passwords, used)
    requires var given := Given(step, AdminNext(env, db, step.rules, step.actor, step.op.admin).1, id);
             given.Some? ==> given.value in used
    ensures var (after, outcome) := AdminNext(env, db, step.rules, step.actor, step.op.admin);
            Good(env, after, id, Extended(passwords, Given(step, outcome, id)), d, all)
  {
    match step.op.admin {
      case CreateUser(email, name, role, password, salt, added) =>
        CreateIsGood(env, used, db, step.rules, step.actor, email, name, role, password, salt, added, id, passwords,
                     d, all);
      case SetInitialPassword(target, password, salt) =>
        InitialIsGood(env, used, db, target, password, salt, id, passwords, d, all);
      case ChangePassword(current, next, salt) =>
        ChangeIsGood(env, used, db, step.actor, current, next, salt, id, passwords, d, all);
      case ResetPassword(target, next, salt) =>
        ResetIsGood(env, used, db, step.rules, step.actor, target, next, salt, id, passwords, d, all);
      case _ => OthersAreGood(env, db, step.rules, step.actor, step.op.admin, id, passwords, d, all);
    }
  }

  lemma SameAccountsAreGood(env: Env, before: Db, after: Db, id: string, passwords: seq<string>, d: int, all: bool)
    requires Good(env, before, id, passwords, d, all)
    requires after.accounts == before.accounts && Grows(before, after)
    ensures Good(env, after, id, passwords, d, all)
  {
  }

  /** A new hash of the password just verified is one of the newest password. */
  lemma UpgradedIsGood(env: Env, used: set<string>, db: Db, target: string, password: string, salt: Salt, id: string,
                       passwords: seq<string>, d: int, all: bool)
    requires Hashing(env, used) && target in db.accounts.users && Good(env, db, id, passwords, d, all)
    requires password in used && InUse(passwords, used)
    requires env.verify(db.accounts.users[target].hash, password) == Some(true)
    ensures Good(env, Logins.Upgraded(env, db, target, password, salt), id, passwords, d, all)
  {
    var after := Logins.Upgraded(env, db, target, password, salt);
    if target == id {
      if passwords != [] {
        HashVerifiesOnly(env, used, db.accounts.users[id].hash, passwords[0], password);
      }
      assert IsHashOf(env, env.hash(password, salt), password);
      assert HistoryOf(after, id) == HistoryOf(db, id);
    }
  }

  /** A sign-in may store a new hash, but only of the password just verified. */
  lemma LoginAsIsGood(env: Env, used: set<string>, db: Db, now: Time, target: string, password: string, salt: Salt,
                      token: string, id: string, passwords: seq<string>, d: int, all: bool)
    requires Hashing(env, used) && target in db.accounts.users && Good(env, db, id, passwords, d, all)
    requires password in used && InUse(passwords, used)
    ensures Good(env, Logins.LoginAs(env, db, now, target, password, salt, token).0, id, passwords, d, all)
  {
    var upgraded := Logins.Upgraded(env, db, target, password, salt);
    if env.verify(db.accounts.users[target].hash, password) == Some(true) {
      var after := Logins.AfterPassword(env, upgraded, now, target, token).0;
      UpgradedIsGood(env, used, db, target, password, salt, id, passwords, d, all);
      Frames.AfterPasswordFrame(env, upgraded, now, target, token);
      AfterPasswordGrows(env, upgraded, now, target, token);
      SameAccountsAreGood(env, upgraded, after, id, passwords, d, all);
    }
  }

  lemma LoginIsGood(env: Env, used: set<string>, db: Db, now: Time, actor: Identity, op: LoginOp, id: string,
                    passwords: seq<string>, d: int, all: bool)
    requires Hashing(env, used) && Tidy(db) && Good(env, db, id, passwords, d, all)
    requires op.Login? ==> op.password in used
    requires InUse(passwords, used)
    ensures Good(env, LoginNext(env, db, now, actor, op).0, id, passwords, d, all)
  {
    LoginGrows(env, db, now, actor, op);
    var after := LoginNext(env, db, now, actor, op).0;
    match op {
      case Login(email, password, salt, token) =>
        var address := Lower(Trim(email));
        if address in db.accounts.emails && db.accounts.emails[address] in db.accounts.users {
          LoginAsIsGood(env, used, db, now, db.accounts.emails[address], password, salt, token, id, passwords, d, all);
        }
      case CompleteMFA(mfaToken, code, token) =>
        Frames.CompleteMFAFrame(env, db, now, mfaToken, code, token);
        SameAccountsAreGood(env, db, after, id, passwords, d, all);
      case StepUpWithSecret(secret) =>
        Frames.StepUpFrame(env, db, now, actor, secret);
        SameAccountsAreGood(env, db, after, id, passwords, d, all);
      case _ =>
        Frames.QuietFrame(env, db, now, actor, op);
        SameAccountsAreGood(env, db, after, id, passwords, d, all);
    }
  }

  lemma StepIsGood(env: Env, used: set<string>, db: Db, step: Step, id: string, passwords: seq<string>, d: int,
                   all: bool)
    requires Hashing(env, used) && d >= 1 && Tidy(db)
    requires Good(env, db, id, passwords, d, all) && DepthIs(db, id, d)
    requires step.op.Sign? && step.op.login.Login? ==> step.op.login.password in used
    requires Given(step, Next(env, db, step).1, id).Some? ==> Given(step, Next(env, db, step).1, id).value in used
    requires InUse(passwords, used)
    ensures var (after, outcome) := Next(env, db, step);
            Good(env, after, id, Extended(passwords, Given(step, outcome, id)), d, all)
  {
    match step.op {
      case Admin(op) => AdminIsGood(env, used, db, step, id, passwords, d, all);
      case Sign(op) => LoginIsGood(env, used, db, step.now, step.actor, op, id, passwords, d, all);
      case Factor(op) =>
        Frames.FactorFrame(env, db, step.now, step.rules, step.actor, op);
        FactorGrows(env, db, step.now, step.rules, step.actor, op);
        SameAccountsAreGood(env, db, FactorNext(env, db, step.now, step.rules, step.actor, op).0, id, passwords, d,
                            all);
    }
  }

  // ---- Whole runs --------------------------------------------------------------------

  /** Every password the account has been given by step n, newest first. */
  function Passwords(run: Run, n: nat, id: string): seq<string>
    requires run.Shaped() && n < |run.states|
  {
    if n == 0 then [] else Extended(Passwords(run, n - 1, id), Given(run.steps[n - 1], run.outcomes[n - 1], id))
  }

  /** The passwords a run is about: those given to the account, and those typed at
      a sign-in. */
  ghost predicate Covers(run: Run, used: set<string>, id: string)
    requires run.Shaped()
  {
    forall i :: 0 <= i < |run.steps| ==>
      && (Given(run.steps[i], run.outcomes[i], id).Some? ==> Given(run.steps[i], run.outcomes[i], id).value in used)
      && (run.steps[i].op.Sign? && run.steps[i].op.login.Login? ==> run.steps[i].op.login.password in used)
  }

  lemma {:induction false} GivenAreCovered(run: Run, used: set<string>, n: nat, id: string)
    requires run.Shaped() && Covers(run, used, id) && n < |run.states|
    ensures InUse(Passwords(run, n, id), used)
  {
    if n > 0 {
      GivenAreCovered(run, used, n - 1, id);
    }
  }

  /** The account had neither a password nor a history when the run began: it did
      not exist, or had only been invited. */
  predicate StartsBlank(run: Run, id: string)
    requires run.Shaped()
  {
    && HistoryOf(run.states[0], id) == []
    && (id in run.states[0].accounts.users ==> run.states[0].accounts.users[id].hash == "")
  }

  lemma RunStepIsGood(run: Run, used: set<string>, i: nat, id: string, passwords: seq<string>, d: int, all: bool)
    requires run.Valid() && Hashing(run.env, used) && Tidy(run.states[0]) && d >= 1 && i < |run.steps|
    requires Good(run.env, run.states[i], id, passwords, d, all) && DepthIs(run.states[i], id, d)
    requires Covers(run, used, id) && InUse(passwords, used)
    ensures Good(run.env, run.states[i + 1], id,
                 Extended(passwords, Given(run.steps[i], run.outcomes[i], id)), d, all)
  {
    RunGrows(run, 0, i);
    assert run.Takes(i);
    StepIsGood(run.env, used, run.states[i], run.steps[i], id, passwords, d, all);
  }

  lemma {:induction false} GoodThroughout(run: Run, used: set<string>, n: nat, id: string, d: int, all: bool)
    requires run.Valid() && Hashing(run.env, used) && Covers(run, used, id) && Tidy(run.states[0]) && d >= 1
    requires forall i :: 0 <= i < |run.states| ==> DepthIs(run.states[i], id, d)
    requires n < |run.states| && (all ==> StartsBlank(run, id))
    ensures Good(run.env, run.states[n], id, Passwords(run, n, id), d, all)
  {
    if n > 0 {
      GoodThroughout(run, used, n - 1, id, d, all);
      GivenAreCovered(run, used, n - 1, id);
      RunStepIsGood(run, used, n - 1, id, Passwords(run, n - 1, id), d, all);
    }
  }

  /** The history window: under a constant depth d, no password given to an
      account repeats one given between two and d + 1 changes earlier, whatever
      sign-ins and rehashes lie between. */
  lemma NoRepeatWithinTheWindow(run: Run, used: set<string>, n: nat, id: string, d: int, a: nat, b: nat)
    requires run.Valid() && Hashing(run.env, used) && Covers(run, used, id) && Tidy(run.states[0]) && d >= 1
    requires forall i :: 0 <= i < |run.states| ==> DepthIs(run.states[i], id, d)
    requires n < |run.states| && b < |Passwords(run, n, id)| && 2 <= b - a <= d + 1
    ensures Passwords(run, n, id)[a] != Passwords(run, n, id)[b]
  {
    GoodThroughout(run, used, n, id, d, false);
  }

  // ---- What is refused, exactly ----------------------------------------------------------

  /** The policy accepts the password for the account. */
  predicate Acceptable(env: Env, db: Db, id: string, password: string)
    requires id in db.accounts.users
  {
    var u := db.accounts.users[id];
    env.acceptable(PolicyFor(db, u.org), password, [u.email, u.name])
  }

  lemma RefusedExactlyWhenRecorded(env: Env, used: set<string>, db: Db, id: string, passwords: seq<string>, d: int,
                                   next: string, salt: Salt)
    requires Hashing(env, used) && d >= 1 && id in db.accounts.users && DepthIs(db, id, d)
    requires Good(env, db, id, passwords, d, true) && InUse(passwords, used) && next in used
    requires Acceptable(env, db, id, next)
    ensures Rule.Replace(env, db, id, next, salt).1 == Refused(PasswordReused) <==> OneOfTheLast(passwords, d, next)
  {
    ReusedExactly(env, used, db.accounts.users[id].hash, HistoryOf(db, id), passwords, d, true, next);
  }

  /** For an account whose whole history lies in the run, a password the policy
      accepts is refused as a repeat exactly when it is one of the d before the
      current one. */
  lemma RefusedIffOneOfTheLast(run: Run, used: set<string>, n: nat, id: string, d: int, next: string, salt: Salt)
    requires run.Valid() && Hashing(run.env, used) && Covers(run, used, id) && Tidy(run.states[0]) && d >= 1
    requires forall i :: 0 <= i < |run.states| ==> DepthIs(run.states[i], id, d)
    requires n < |run.states| && id in run.states[n].accounts.users && StartsBlank(run, id)
    requires next in used && Acceptable(run.env, run.states[n], id, next)
    ensures Rule.Replace(run.env, run.states[n], id, next, salt).1 == Refused(PasswordReused)
       <==> OneOfTheLast(Passwords(run, n, id), d, next)
  {
    GoodThroughout(run, used, n, id, d, true);
    GivenAreCovered(run, used, n, id);
    RefusedExactlyWhenRecorded(run.env, used, run.states[n], id, Passwords(run, n, id), d, next, salt);
  }

  /** The current password is refused as the next one exactly when the change
      before had set it too: it is not in the history yet. */
  lemma CurrentPasswordRefusedIffSetTwice(run: Run, used: set<string>, n: nat, id: string, d: int, salt: Salt)
    requires run.Valid() && Hashing(run.env, used) && Covers(run, used, id) && Tidy(run.states[0]) && d >= 1
    requires forall i :: 0 <= i < |run.states| ==> DepthIs(run.states[i], id, d)
    requires n < |run.states| && id in run.states[n].accounts.users && StartsBlank(run, id)
    requires Passwords(run, n, id) != [] && Acceptable(run.env, run.states[n], id, Passwords(run, n, id)[0])
    ensures var passwords := Passwords(run, n, id);
            Rule.Replace(run.env, run.states[n], id, passwords[0], salt).1 == Refused(PasswordReused)
            <==> |passwords| >= 2 && passwords[0] == passwords[1]
  {
    var passwords := Passwords(run, n, id);
    GivenAreCovered(run, used, n, id);
    RefusedIffOneOfTheLast(run, used, n, id, d, passwords[0], salt);
    forall k | 2 <= k <= d && k < |passwords|
      ensures passwords[k] != passwords[0]
    {
      NoRepeatWithinTheWindow(run, used, n, id, d, 0, k);
    }
  }

  /** The plainest such case: with nothing in the history, the current password
      may be set again. */
  lemma CurrentPasswordMayBeSetAgain(env: Env, db: Db, id: string, password: string, salt: Salt)
    requires id in db.accounts.users && env.verify(db.accounts.users[id].hash, password) == Some(true)
    requires HistoryOf(db, id) == [] && Acceptable(env, db, id, password)
    ensures Rule.Replace(env, db, id, password, salt).1 == Done
  {
    assert Newest([], PolicyFor(db, db.accounts.users[id].org).historyDepth) == [];
  }
}
