/** The management use cases as they are carried out (admin.go): checks and store
    calls in order. Each method is proved to do what AccountRules says. */
module Management {
  import opened Prelude
  import opened Roles
  import opened State
  import opened Stores
  import opened Text
  import PasswordPolicy
  import Rule = AccountRules

  class Admin {
    const store: Store
    const table: PermissionTable
    const env: Env

    constructor (store: Store, table: PermissionTable, env: Env)
      ensures this.store == store && this.table == table && this.env == env
    {
      this.store := store;
      this.table := table;
      this.env := env;
    }

    method ManageableTarget(actor: Identity, id: string) returns (r: Result<User, Error>)
      ensures r == Rule.Target(table.Current(), store.db, actor, id)
    {
      if !table.Current().Can(actor.role, table.manageUsers) {
        return Err(NotPermitted);
      }
      if id == actor.user {
        return Err(NotPermitted);
      }
      if id !in store.db.accounts.users {
        return Err(NotFound);
      }
      var target := store.db.accounts.users[id];
      if target.org != actor.org {
        return Err(NotFound);
      }
      if !table.Current().MayHandle(actor.role, target.role) {
        return Err(PrivilegedTarget);
      }
      return Ok(target);
    }

    /** Looks through the organization for another enabled holder of the role. */
    method IsLastEnabledHolder(id: string) returns (last: bool)
      requires id in store.db.accounts.users
      ensures last <==> Rule.OnlyHolder(store.db, id)
    {
      var target := store.db.accounts.users[id];
      var ids := store.ListUsers(target.org);
      for i := 0 to |ids|
        invariant forall j :: 0 <= j < i && ids[j] != id ==> !Rule.HoldsAs(store.db, ids[j], target.org, target.role)
      {
        var u := store.db.accounts.users[ids[i]];
        if ids[i] != id && u.role == target.role && !u.disabled {
          return false;
        }
      }
      forall other | other in store.db.accounts.users && other != id
        ensures !Rule.HoldsAs(store.db, other, target.org, target.role)
      {
        if store.db.accounts.users[other].org == target.org {
          assert other in ids;
        }
      }
      return true;
    }

    /** The search of checkReuse. A row that does not parse is passed over. */
    method CheckReuse(hashes: seq<string>, next: string) returns (reused: bool)
      ensures reused <==> Rule.Reused(env, hashes, next)
    {
      for i := 0 to |hashes|
        invariant forall k :: 0 <= k < i ==> env.verify(hashes[k], next) != Some(true)
      {
        match env.verify(hashes[i], next) {
          case None =>
          case Some(ok) =>
            if ok {
              return true;
            }
        }
      }
      return false;
    }

    method CheckNewUser(actor: Identity, email: string, role: Role) returns (r: Result<string, Error>)
      ensures r == Rule.NewUserCheck(table.Current(), actor, email, role)
    {
      if !table.Current().Can(actor.role, table.manageUsers) {
        return Err(NotPermitted);
      }
      if !table.Current().Valid(role) {
        return Err(NoSuchRole);
      }
      if !table.Current().MayHandle(actor.role, role) {
        return Err(PrivilegedTarget);
      }
      var address := Trim(email);
      if address == "" {
        return Err(EmailRequired);
      }
      return Ok(address);
    }

    method InsertUser(id: string, u: User) returns (r: Outcome)
      modifies store
      ensures (store.db, r) == Rule.Insert(old(store.db), id, u)
    {
      if Lower(u.email) in store.db.accounts.emails {
        return Refused(EmailTaken);
      }
      var ok := store.CreateUser(id, u);
      if !ok {
        return Refused(EmailTaken);
      }
      return Created(id);
    }

    method CreateUser(actor: Identity, email: string, name: string, role: Role, password: string, salt: Salt,
                      id: string) returns (r: Outcome)
      modifies store
      ensures (store.db, r) ==
              Rule.CreateUser(env, table.Current(), old(store.db), actor, email, name, role, password, salt, id)
    {
      var checked := CheckNewUser(actor, email, role);
      match checked {
        case Err(e) => return Refused(e);
        case Ok(address) =>
          if !env.acceptable(PolicyFor(store.db, actor.org), password, [address, name]) {
            return Refused(PolicyRefused);
          }
          r := InsertUser(id, User(actor.org, address, Trim(name), env.hash(password, salt), role, false));
      }
    }

    method CreateInvitedUser(actor: Identity, email: string, name: string, role: Role, id: string) returns (r: Outcome)
      modifies store
      ensures (store.db, r) == Rule.CreateInvitedUser(table.Current(), old(store.db), actor, email, name, role, id)
    {
      var checked := CheckNewUser(actor, email, role);
      match checked {
        case Err(e) => return Refused(e);
        case Ok(address) => r := InsertUser(id, User(actor.org, address, Trim(name), "", role, false));
      }
    }

    method SetInitialPassword(id: string, password: string, salt: Salt) returns (r: Outcome)
      modifies store
      ensures (store.db, r) == Rule.SetInitialPassword(env, old(store.db), id, password, salt)
    {
      if id !in store.db.accounts.users {
        return Refused(NotFound);
      }
      var u := store.db.accounts.users[id];
      if u.disabled {
        return Refused(NotFound);
      }
      if u.hash != "" {
        return Refused(PasswordAlreadySet);
      }
      var policy := PolicyFor(store.db, u.org);
      if !env.acceptable(policy, password, [u.email, u.name]) {
        return Refused(PolicyRefused);
      }
      store.SetPasswordHash(id, env.hash(password, salt));
      store.RecordPasswordChange(id, "", policy.historyDepth);
      return Done;
    }

    method DisableUser(actor: Identity, id: string) returns (r: Outcome)
      modifies store
      ensures (store.db, r) == Rule.DisableUser(table.Current(), old(store.db), actor, id)
    {
      var target := ManageableTarget(actor, id);
      match target {
        case Err(e) => return Refused(e);
        case Ok(u) =>
          if u.disabled {
            return Done;
          }
          if table.Current().Protected(u.role) {
            var last := IsLastEnabledHolder(id);
            if last {
              return Refused(LastAdmin);
            }
          }
          store.SetDisabled(id, true);
          store.RevokeSessionsByUser(id);
          return Done;
      }
    }

    method EnableUser(actor: Identity, id: string) returns (r: Outcome)
      modifies store
      ensures (store.db, r) == Rule.EnableUser(table.Current(), old(store.db), actor, id)
    {
      var target := ManageableTarget(actor, id);
      match target {
        case Err(e) => return Refused(e);
        case Ok(u) =>
          if u.disabled {
            store.SetDisabled(id, false);
          }
          return Done;
      }
    }

    method DeleteUser(actor: Identity, id: string) returns (r: Outcome)
      modifies store
      ensures (store.db, r) == Rule.DeleteUser(table.Current(), old(store.db), actor, id)
    {
      var target := ManageableTarget(actor, id);
      match target {
        case Err(e) => return Refused(e);
        case Ok(u) =>
          if table.Current().Protected(u.role) && !u.disabled {
            var last := IsLastEnabledHolder(id);
            if last {
              return Refused(LastAdmin);
            }
          }
          store.DeleteUser(id);
          return Done;
      }
    }

    method SetRole(actor: Identity, id: string, role: Role) returns (r: Outcome)
      modifies store
      ensures (store.db, r) == Rule.SetRole(table.Current(), old(store.db), actor, id, role)
    {
      if !table.Current().Valid(role) {
        return Refused(NoSuchRole);
      }
      var target := ManageableTarget(actor, id);
      match target {
        case Err(e) => return Refused(e);
        case Ok(u) =>
          if u.role == role {
            return Done;
          }
          if !table.Current().MayHandle(actor.role, role) {
            return Refused(PrivilegedTarget);
          }
          if table.Current().Protected(u.role) && !u.disabled {
            var last := IsLastEnabledHolder(id);
            if last {
              return Refused(LastAdmin);
            }
          }
          store.SetRole(id, role);
          return Done;
      }
    }

    /** What ChangePassword and ResetPassword do once the caller may. */
    method ReplacePassword(id: string, next: string, salt: Salt) returns (r: Outcome)
      requires id in store.db.accounts.users
      modifies store
      ensures (store.db, r) == Rule.Replace(env, old(store.db), id, next, salt)
    {
      var u := store.db.accounts.users[id];
      var policy := PolicyFor(store.db, u.org);
      if !env.acceptable(policy, next, [u.email, u.name]) {
        return Refused(PolicyRefused);
      }
      if policy.historyDepth > 0 {
        var reused := CheckReuse(Newest(HistoryOf(store.db, id), policy.historyDepth), next);
        if reused {
          return Refused(PasswordReused);
        }
      }
      store.SetPasswordHash(id, env.hash(next, salt));
      store.RecordPasswordChange(id, u.hash, policy.historyDepth);
      store.RevokeSessionsByUser(id);
      return Done;
    }

    method ChangePassword(actor: Identity, current: string, next: string, salt: Salt) returns (r: Outcome)
      modifies store
      ensures (store.db, r) == Rule.ChangePassword(env, old(store.db), actor, current, next, salt)
    {
      if actor.user == "" {
        return Refused(NotPermitted);
      }
      if actor.user !in store.db.accounts.users {
        return Refused(NotFound);
      }
      var u := store.db.accounts.users[actor.user];
      if u.hash == "" {
        return Refused(InvalidCredentials);
      }
      match env.verify(u.hash, current) {
        case None => return Refused(CorruptHash);
        case Some(ok) =>
          if !ok {
            return Refused(InvalidCredentials);
          }
          r := ReplacePassword(actor.user, next, salt);
      }
    }

    method ResetPassword(actor: Identity, id: string, next: string, salt: Salt) returns (r: Outcome)
      modifies store
      ensures (store.db, r) == Rule.ResetPassword(env, table.Current(), old(store.db), actor, id, next, salt)
    {
      var target := ManageableTarget(actor, id);
      match target {
        case Err(e) => return Refused(e);
        case Ok(u) => r := ReplacePassword(id, next, salt);
      }
    }

    method MintAPIKey(actor: Identity, requested: Role, key: string) returns (r: Outcome)
      modifies store
      ensures (store.db, r) == Rule.MintAPIKey(table.Current(), old(store.db), actor, requested, key)
    {
      if actor.user == "" {
        return Refused(NotPermitted);
      }
      var asked := if table.Current().Valid(requested) then requested else actor.role;
      var granted := table.Current().AtMost(asked, actor.role);
      var ok := store.CreateAPIKey(key, ApiKey(actor.user, granted, false));
      if !ok {
        return Refused(Conflict);
      }
      return KeyMinted(key);
    }

    method RevokeAPIKey(actor: Identity, key: string) returns (r: Outcome)
      modifies store
      ensures (store.db, r) == Rule.RevokeAPIKey(old(store.db), actor, key)
    {
      if actor.user == "" {
        return Refused(NotPermitted);
      }
      if key !in store.db.accounts.keys {
        return Refused(NotFound);
      }
      var k := store.db.accounts.keys[key];
      if k.user != actor.user {
        return Refused(NotFound);
      }
      if !k.revoked {
        store.RevokeAPIKey(key);
      } else {
        assert store.db.accounts.keys[key := k.(revoked := true)] == store.db.accounts.keys;
      }
      return Done;
    }

    method SetPasswordPolicy(actor: Identity, policy: PasswordPolicy.Policy) returns (r: Outcome)
      modifies store
      ensures (store.db, r) == Rule.SetPasswordPolicy(table.Current(), old(store.db), actor, policy)
    {
      if !table.Current().Can(actor.role, table.manageUsers) {
        return Refused(NotPermitted);
      }
      if !PasswordPolicy.Savable(policy) {
        return Refused(BadPolicy);
      }
      store.SavePolicy(actor.org, policy);
      return Done;
    }
  }
}
