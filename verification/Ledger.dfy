/** The log of a deployment determines its directory: accounts, keys and policies
    are, in every state of every run, what the steps taken and their outcomes say
    (admin.go:230-527, 700-811). */
module Ledger {
  import opened Prelude
  import opened Roles
  import opened State
  import opened System
  import opened Text
  import PasswordPolicy
  import Rule = AccountRules
  import Frames

  /** An account without its password hash. */
  datatype Card = Card(org: string, email: string, name: string, role: Role, disabled: bool)

  datatype Books = Books(
    accounts: map<string, Card>,
    keys: map<string, ApiKey>,
    policies: map<string, PasswordPolicy.Policy>)

  function CardOf(u: User): Card {
    Card(u.org, u.email, u.name, u.role, u.disabled)
  }

  function CardsOf(users: map<string, User>): map<string, Card> {
    map id | id in users :: CardOf(users[id])
  }

  function BooksOf(db: Db): Books {
    Books(CardsOf(db.accounts.users), db.accounts.keys, db.accounts.policies)
  }

  // ---- What an entry of the log says ---------------------------------------------------

  /** The permissions a table lists for a role. */
  function Carried(rules: Rules, role: Role): set<Permission> {
    if role in rules.st.perms then rules.st.perms[role] else {}
  }

  /** The role a key gets: the one asked for if it is known and carries no more than
      the minter's, the minter's if that carries no more than the one asked for, and
      otherwise none at all. */
  function Granted(rules: Rules, own: Role, asked: Role): Role {
    if asked !in rules.st.perms then own
    else if Carried(rules, asked) <= Carried(rules, own) then asked
    else if Carried(rules, own) <= Carried(rules, asked) then own
    else ""
  }

  /** The account is there, with its card changed. */
  function Amended(cards: map<string, Card>, id: string, card: Card -> Card): map<string, Card> {
    if id in cards then cards[id := card(cards[id])] else cards
  }

  function Opened(b: Books, step: Step, outcome: Outcome, email: string, name: string, role: Role): Books {
    if outcome.Created?
    then b.(accounts := b.accounts[outcome.id := Card(step.actor.org, Trim(email), Trim(name), role, false)])
    else b
  }

  /** The books after one entry. Nothing but the operation, its caller, its table
      and its outcome is looked at. */
  function Posted(b: Books, step: Step, outcome: Outcome): Books {
    match step.op
    case Admin(CreateUser(email, name, role, _, _, _)) => Opened(b, step, outcome, email, name, role)
    case Admin(CreateInvitedUser(email, name, role, _)) => Opened(b, step, outcome, email, name, role)
    case Admin(MintAPIKey(asked, key)) =>
      if outcome.KeyMinted?
      then b.(keys := b.keys[key := ApiKey(step.actor.user, Granted(step.rules, step.actor.role, asked), false)])
      else b
    case Admin(op) => if outcome == Done then PostedDone(b, step.actor, op) else b
    case _ => b
  }

  function PostedDone(b: Books, actor: Identity, op: AdminOp): Books {
    match op
    case DisableUser(id) => b.(accounts := Amended(b.accounts, id, (c: Card) => c.(disabled := true)))
    case EnableUser(id) => b.(accounts := Amended(b.accounts, id, (c: Card) => c.(disabled := false)))
    case SetRole(id, role) => b.(accounts := Amended(b.accounts, id, (c: Card) => c.(role := role)))
    case DeleteUser(id) =>
      b.(accounts := b.accounts - {id}, keys := map k | k in b.keys && b.keys[k].user != id :: b.keys[k])
    case RevokeAPIKey(key) => if key in b.keys then b.(keys := b.keys[key := b.keys[key].(revoked := true)]) else b
    case SetPasswordPolicy(policy) => b.(policies := b.policies[actor.org := policy])
    case _ => b
  }

  // ---- Every operation posts what its entry says ------------------------------------------

  lemma OneCard(users: map<string, User>, id: string, u: User)
    ensures CardsOf(users[id := u]) == CardsOf(users)[id := CardOf(u)]
  {
  }

  lemma SameCard(users: map<string, User>, id: string)
    requires id in users
    ensures CardsOf(users)[id := CardOf(users[id])] == CardsOf(users)
  {
  }

  lemma InsertPosts(db: Db, id: string, u: User)
    ensures var (after, outcome) := Rule.Insert(db, id, u);
            && (outcome == Created(id) || (outcome.Refused? && after == db))
            && BooksOf(after)
               == if outcome.Created? then BooksOf(db).(accounts := BooksOf(db).accounts[id := CardOf(u)])
                  else BooksOf(db)
  {
    OneCard(db.accounts.users, id, u);
  }

  lemma CreationPosts(env: Env, db: Db, step: Step)
    requires step.op.Admin? && (step.op.admin.CreateUser? || step.op.admin.CreateInvitedUser?)
    ensures var (after, outcome) := AdminNext(env, db, step.rules, step.actor, step.op.admin);
            BooksOf(after) == Posted(BooksOf(db), step, outcome)
  {
    var op, actor := step.op.admin, step.actor;
    var hash := if op.CreateUser? then env.hash(op.password, op.salt) else "";
    InsertPosts(db, op.id, User(actor.org, Trim(op.email), Trim(op.name), hash, op.role, false));
  }

  lemma MintPosts(env: Env, db: Db, step: Step)
    requires step.op.Admin? && step.op.admin.MintAPIKey?
    ensures var (after, outcome) := AdminNext(env, db, step.rules, step.actor, step.op.admin);
            BooksOf(after) == Posted(BooksOf(db), step, outcome)
  {
  }

  lemma DisablingPosts(rules: Rules, db: Db, actor: Identity, id: string)
    ensures var (after, outcome) := Rule.DisableUser(rules, db, actor, id);
            BooksOf(after) == if outcome == Done then PostedDone(BooksOf(db), actor, DisableUser(id)) else BooksOf(db)
  {
    if id in db.accounts.users {
      OneCard(db.accounts.users, id, db.accounts.users[id].(disabled := true));
      SameCard(db.accounts.users, id);
    }
  }

  lemma EnablingPosts(rules: Rules, db: Db, actor: Identity, id: string)
    ensures var (after, outcome) := Rule.EnableUser(rules, db, actor, id);
            BooksOf(after) == if outcome == Done then PostedDone(BooksOf(db), actor, EnableUser(id)) else BooksOf(db)
  {
    if id in db.accounts.users {
      OneCard(db.accounts.users, id, db.accounts.users[id].(disabled := false));
      SameCard(db.accounts.users, id);
    }
  }

  lemma ReRolingPosts(rules: Rules, db: Db, actor: Identity, id: string, role: Role)
    ensures var (after, outcome) := Rule.SetRole(rules, db, actor, id, role);
            BooksOf(after) == if outcome == Done then PostedDone(BooksOf(db), actor, SetRole(id, role)) else BooksOf(db)
  {
    if id in db.accounts.users {
      OneCard(db.accounts.users, id, db.accounts.users[id].(role := role));
      SameCard(db.accounts.users, id);
    }
  }

  lemma DeletionPosts(env: Env, db: Db, step: Step)
    requires step.op.Admin? && step.op.admin.DeleteUser?
    ensures var (after, outcome) := AdminNext(env, db, step.rules, step.actor, step.op.admin);
            BooksOf(after) == Posted(BooksOf(db), step, outcome)
  {
  }

  lemma StoringPosts(env: Env, db: Db, id: string, password: string, salt: Salt, depth: int)
    requires id in db.accounts.users
    ensures BooksOf(Rule.Stored(env, db, id, password, salt, depth)) == BooksOf(db)
  {
    OneCard(db.accounts.users, id, db.accounts.users[id].(hash := env.hash(password, salt)));
    SameCard(db.accounts.users, id);
  }

  lemma ReplacingPosts(env: Env, db: Db, id: string, next: string, salt: Salt)
    requires id in db.accounts.users
    ensures BooksOf(Rule.Replace(env, db, id, next, salt).0) == BooksOf(db)
  {
    StoringPosts(env, db, id, next, salt, PolicyFor(db, db.accounts.users[id].org).historyDepth);
  }

  lemma PasswordPosts(env: Env, db: Db, step: Step)
    requires step.op.Admin?
    requires step.op.admin.SetInitialPassword? || step.op.admin.ChangePassword? || step.op.admin.ResetPassword?
    ensures var (after, outcome) := AdminNext(env, db, step.rules, step.actor, step.op.admin);
            BooksOf(after) == Posted(BooksOf(db), step, outcome)
  {
    match step.op.admin {
      case SetInitialPassword(id, password, salt) =>
        if id in db.accounts.users {
          StoringPosts(env, db, id, password, salt, PolicyFor(db, db.accounts.users[id].org).historyDepth);
        }
      case ChangePassword(_, next, salt) =>
        if step.actor.user in db.accounts.users {
          ReplacingPosts(env, db, step.actor.user, next, salt);
        }
      case ResetPassword(id, next, salt) =>
        if id in db.accounts.users {
          ReplacingPosts(env, db, id, next, salt);
        }
    }
  }

  lemma RestPosts(env: Env, db: Db, step: Step)
    requires step.op.Admin? && (step.op.admin.RevokeAPIKey? || step.op.admin.SetPasswordPolicy?)
    ensures var (after, outcome) := AdminNext(env, db, step.rules, step.actor, step.op.admin);
            BooksOf(after) == Posted(BooksOf(db), step, outcome)
  {
  }

  lemma SameAccountsSameBooks(before: Db, after: Db)
    requires Frames.SameAccounts(before.accounts, after.accounts)
    ensures BooksOf(after) == BooksOf(before)
  {
    assert CardsOf(after.accounts.users) == CardsOf(before.accounts.users);
  }

  lemma StepPosts(env: Env, db: Db, step: Step)
    ensures BooksOf(Next(env, db, step).0) == Posted(BooksOf(db), step, Next(env, db, step).1)
  {
    match step.op {
      case Admin(op) =>
        match op {
          case CreateUser(_, _, _, _, _, _) => CreationPosts(env, db, step);
          case CreateInvitedUser(_, _, _, _) => CreationPosts(env, db, step);
          case MintAPIKey(_, _) => MintPosts(env, db, step);
          case DisableUser(id) => DisablingPosts(step.rules, db, step.actor, id);
          case EnableUser(id) => EnablingPosts(step.rules, db, step.actor, id);
          case SetRole(id, role) => ReRolingPosts(step.rules, db, step.actor, id, role);
          case DeleteUser(_) => DeletionPosts(env, db, step);
          case RevokeAPIKey(_) => RestPosts(env, db, step);
          case SetPasswordPolicy(_) => RestPosts(env, db, step);
          case _ => PasswordPosts(env, db, step);
        }
      case Sign(op) =>
        Frames.LoginFrame(env, db, step.now, step.actor, op);
        SameAccountsSameBooks(db, Next(env, db, step).0);
      case Factor(op) =>
        Frames.FactorFrame(env, db, step.now, step.rules, step.actor, op);
    }
  }

  /** The books after the first n entries. */
  function Replayed(run: Run, n: nat): Books
    requires run.Shaped() && n < |run.states|
  {
    if n == 0 then BooksOf(run.states[0]) else Posted(Replayed(run, n - 1), run.steps[n - 1], run.outcomes[n - 1])
  }

  /** In every state of every run, accounts, keys and policies are what replaying
      the log gives: an operation that reports success has taken effect, one that
      reports anything else has not, and nothing else changes them. */
  lemma {:induction false} LogDeterminesTheBooks(run: Run, n: nat)
    requires run.Valid() && n < |run.states|
    ensures BooksOf(run.states[n]) == Replayed(run, n)
  {
    if n > 0 {
      LogDeterminesTheBooks(run, n - 1);
      StepPosts(run.env, run.states[n - 1], run.steps[n - 1]);
      assert run.Takes(n - 1);
    }
  }

  /** Who may sign in with a key is decided by the books alone. */
  lemma KeysLiveByTheBooks(run: Run, n: nat, key: string)
    requires run.Valid() && n < |run.states|
    ensures var b := Replayed(run, n);
            LiveKey(run.states[n], key)
            <==> key in b.keys && !b.keys[key].revoked
                 && b.keys[key].user in b.accounts && !b.accounts[b.keys[key].user].disabled
  {
    LogDeterminesTheBooks(run, n);
  }
}
