/** Account administration (admin.go), one function per operation: the tables
    before, the tables after, and how the operation ends. */
module AccountRules {
  import opened Prelude
  import opened Roles
  import opened State
  import opened Text
  import PasswordPolicy

  /** manageableTarget: what every operation on another account checks. */
  function Target(rules: Rules, db: Db, actor: Identity, id: string): Result<User, Error> {
    if !rules.Can(actor.role, rules.manageUsers) then Err(NotPermitted)
    else if id == actor.user then Err(NotPermitted)
    else if id !in db.accounts.users then Err(NotFound)
    else if db.accounts.users[id].org != actor.org then Err(NotFound)
    else if !rules.MayHandle(actor.role, db.accounts.users[id].role) then Err(PrivilegedTarget)
    else Ok(db.accounts.users[id])
  }

  predicate HoldsAs(db: Db, other: string, org: string, role: Role) {
    && other in db.accounts.users
    && db.accounts.users[other].org == org
    && db.accounts.users[other].role == role
    && !db.accounts.users[other].disabled
  }

  /** isLastEnabledHolder: nobody else in the organization holds the role. */
  predicate OnlyHolder(db: Db, id: string)
    requires id in db.accounts.users
  {
    forall other :: other in db.accounts.users && other != id ==>
      !HoldsAs(db, other, db.accounts.users[id].org, db.accounts.users[id].role)
  }

  /** checkNewUser: the trimmed address, or why not. */
  function NewUserCheck(rules: Rules, actor: Identity, email: string, role: Role): Result<string, Error> {
    if !rules.Can(actor.role, rules.manageUsers) then Err(NotPermitted)
    else if !rules.Valid(role) then Err(NoSuchRole)
    else if !rules.MayHandle(actor.role, role) then Err(PrivilegedTarget)
    else if Trim(email) == "" then Err(EmailRequired)
    else Ok(Trim(email))
  }

  /** insertUser. */
  function Insert(db: Db, id: string, u: User): (Db, Outcome) {
    if Lower(u.email) in db.accounts.emails then (db, Refused(EmailTaken))
    else if id in db.minted then (db, Refused(EmailTaken))
    else (WithMinted(WithNewUser(db, id, u, Lower(u.email)), id), Created(id))
  }

  function CreateUser(env: Env, rules: Rules, db: Db, actor: Identity, email: string, name: string, role: Role,
                      password: string, salt: Salt, id: string): (Db, Outcome)
  {
    match NewUserCheck(rules, actor, email, role)
    case Err(e) => (db, Refused(e))
    case Ok(address) =>
      if !env.acceptable(PolicyFor(db, actor.org), password, [address, name]) then (db, Refused(PolicyRefused))
      else Insert(db, id, User(actor.org, address, Trim(name), env.hash(password, salt), role, false))
  }

  function CreateInvitedUser(rules: Rules, db: Db, actor: Identity, email: string, name: string, role: Role,
                             id: string): (Db, Outcome)
  {
    match NewUserCheck(rules, actor, email, role)
    case Err(e) => (db, Refused(e))
    case Ok(address) => Insert(db, id, User(actor.org, address, Trim(name), "", role, false))
  }

  /** The new hash, and the outgoing one filed. */
  function Stored(env: Env, db: Db, id: string, password: string, salt: Salt, depth: int): Db
    requires id in db.accounts.users
  {
    WithChangeRecorded(WithHash(db, id, env.hash(password, salt)), id, db.accounts.users[id].hash, depth)
  }

  function SetInitialPassword(env: Env, db: Db, id: string, password: string, salt: Salt): (Db, Outcome) {
    if id !in db.accounts.users || db.accounts.users[id].disabled then (db, Refused(NotFound))
    else if db.accounts.users[id].hash != "" then (db, Refused(PasswordAlreadySet))
    else
      var policy := PolicyFor(db, db.accounts.users[id].org);
      if !env.acceptable(policy, password, [db.accounts.users[id].email, db.accounts.users[id].name]) then
        (db, Refused(PolicyRefused))
      else
        (Stored(env, db, id, password, salt, policy.historyDepth), Done)
  }

  function DisableUser(rules: Rules, db: Db, actor: Identity, id: string): (Db, Outcome) {
    match Target(rules, db, actor, id)
    case Err(e) => (db, Refused(e))
    case Ok(u) =>
      if u.disabled then (db, Done)
      else if rules.Protected(u.role) && OnlyHolder(db, id) then (db, Refused(LastAdmin))
      else (WithoutSessionsOf(WithUser(db, id, u.(disabled := true)), id), Done)
  }

  function EnableUser(rules: Rules, db: Db, actor: Identity, id: string): (Db, Outcome) {
    match Target(rules, db, actor, id)
    case Err(e) => (db, Refused(e))
    case Ok(u) => if !u.disabled then (db, Done) else (WithUser(db, id, u.(disabled := false)), Done)
  }

  function DeleteUser(rules: Rules, db: Db, actor: Identity, id: string): (Db, Outcome) {
    match Target(rules, db, actor, id)
    case Err(e) => (db, Refused(e))
    case Ok(u) =>
      if rules.Protected(u.role) && !u.disabled && OnlyHolder(db, id) then (db, Refused(LastAdmin))
      else (WithoutUser(db, id, Lower(u.email)), Done)
  }

  function SetRole(rules: Rules, db: Db, actor: Identity, id: string, role: Role): (Db, Outcome) {
    if !rules.Valid(role) then (db, Refused(NoSuchRole))
    else
      match Target(rules, db, actor, id)
      case Err(e) => (db, Refused(e))
      case Ok(u) =>
        if u.role == role then (db, Done)
        else if !rules.MayHandle(actor.role, role) then (db, Refused(PrivilegedTarget))
        else if rules.Protected(u.role) && !u.disabled && OnlyHolder(db, id) then (db, Refused(LastAdmin))
        else (WithUser(db, id, u.(role := role)), Done)
  }

  /** Whether checkReuse finds the password among these hashes; a row that does
      not parse is never a match. */
  predicate Reused(env: Env, hashes: seq<string>, password: string) {
    exists k :: 0 <= k < |hashes| && env.verify(hashes[k], password) == Some(true)
  }

  /** The shared tail of ChangePassword and ResetPassword: policy, reuse, the new
      hash, the history row, and every session of the account. */
  function Replace(env: Env, db: Db, id: string, next: string, salt: Salt): (Db, Outcome)
    requires id in db.accounts.users
  {
    var u := db.accounts.users[id];
    var policy := PolicyFor(db, u.org);
    if !env.acceptable(policy, next, [u.email, u.name]) then (db, Refused(PolicyRefused))
    else if Reused(env, Newest(HistoryOf(db, id), policy.historyDepth), next) then (db, Refused(PasswordReused))
    else (WithoutSessionsOf(Stored(env, db, id, next, salt, policy.historyDepth), id), Done)
  }

  function ChangePassword(env: Env, db: Db, actor: Identity, current: string, next: string, salt: Salt)
    : (Db, Outcome)
  {
    if actor.user == "" then (db, Refused(NotPermitted))
    else if actor.user !in db.accounts.users then (db, Refused(NotFound))
    else if db.accounts.users[actor.user].hash == "" then (db, Refused(InvalidCredentials))
    else
      match env.verify(db.accounts.users[actor.user].hash, current)
      case None => (db, Refused(CorruptHash))
      case Some(ok) => if !ok then (db, Refused(InvalidCredentials)) else Replace(env, db, actor.user, next, salt)
  }

  function ResetPassword(env: Env, rules: Rules, db: Db, actor: Identity, id: string, next: string, salt: Salt)
    : (Db, Outcome)
  {
    match Target(rules, db, actor, id)
    case Err(e) => (db, Refused(e))
    case Ok(_) => Replace(env, db, id, next, salt)
  }

  function MintAPIKey(rules: Rules, db: Db, actor: Identity, requested: Role, key: string): (Db, Outcome) {
    if actor.user == "" then (db, Refused(NotPermitted))
    else if key in db.minted then (db, Refused(Conflict))
    else
      (WithMinted(WithKey(db, key, ApiKey(actor.user, KeyRole(rules, actor.role, requested), false)), key),
       KeyMinted(key))
  }

  function RevokeAPIKey(db: Db, actor: Identity, key: string): (Db, Outcome) {
    if actor.user == "" then (db, Refused(NotPermitted))
    else if key !in db.accounts.keys || db.accounts.keys[key].user != actor.user then (db, Refused(NotFound))
    else (WithKey(db, key, db.accounts.keys[key].(revoked := true)), Done)
  }

  function SetPasswordPolicy(rules: Rules, db: Db, actor: Identity, policy: PasswordPolicy.Policy): (Db, Outcome) {
    if !rules.Can(actor.role, rules.manageUsers) then (db, Refused(NotPermitted))
    else if !PasswordPolicy.Savable(policy) then (db, Refused(BadPolicy))
    else (db.(accounts := db.accounts.(policies := db.accounts.policies[actor.org := policy])), Done)
  }
}
