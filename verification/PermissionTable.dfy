/** The permission table (role.go): which role carries which permission, which
    roles are guarded, and which an organization must never lose. */
module Roles {
  import opened Prelude

  type Role = string
  type Permission = string

  /** The replaceable part of a table. `protectedRoles == []` stands for the nil
      slice, which means "the admin role alone". */
  datatype TableState = TableState(
    perms: map<Role, set<Permission>>,
    protectedRoles: seq<Role>,
    guards: map<Role, Permission>)

  /** Everything a reader of the table can see at one moment. */
  datatype Rules = Rules(manageUsers: Permission, adminRole: Role, st: TableState) {

    /** The permissions of a role; an unknown role has none. */
    function PermsOf(role: Role): set<Permission> {
      if role in st.perms then st.perms[role] else {}
    }

    predicate Can(role: Role, p: Permission) {
      p in PermsOf(role)
    }

    predicate Valid(role: Role) {
      role in st.perms
    }

    predicate Protected(role: Role) {
      if st.protectedRoles == [] then role == adminRole else role in st.protectedRoles
    }

    predicate Privileged(role: Role) {
      role in st.guards
    }

    /** The permission guarding a role; Go's zero value "" when there is none. */
    function GuardOf(role: Role): Permission {
      if role in st.guards then st.guards[role] else ""
    }

    predicate MayHandle(caller: Role, role: Role) {
      !Privileged(role) || Can(caller, GuardOf(role))
    }

    /** The stronger of "the role asked for" and "nothing above the ceiling". */
    function AtMost(role: Role, ceiling: Role): Role {
      if PermsOf(role) <= PermsOf(ceiling) then role
      else if PermsOf(ceiling) <= PermsOf(role) then ceiling
      else ""
    }

    /** What the constructors check, all together. */
    ghost predicate WellFormed() {
      && "" !in st.perms
      && (forall r :: r in st.perms ==> "" !in st.perms[r])
      && Can(adminRole, manageUsers)
      && (st.guards == map[] || GuardsOk(this, st.guards))
      && (forall r :: r in st.protectedRoles ==> Valid(r))
    }
  }

  datatype TableError =
    | NoRoles | NoManageUsers | EmptyRole | EmptyPermission
    | UnknownAdminRole | AdminCannotManage
    | NoProtectedRoles | UnknownRole
    | NoGuards | EmptyGuard | HolderNotGuarded | HolderCannotManage | NoHolder
    | NeedTwoTables | AnchorsChanged

  ghost predicate BuildOk(table: map<Role, seq<Permission>>, manageUsers: Permission, adminRole: Role) {
    && table != map[]
    && manageUsers != ""
    && (forall r :: r in table ==> r != "" && "" !in table[r])
    && adminRole in table
    && manageUsers in table[adminRole]
  }

  function Listed(table: map<Role, seq<Permission>>): map<Role, set<Permission>> {
    map r | r in table :: (set p | p in table[r])
  }

  /** A role carrying `p` must itself be guarded and able to manage users. */
  predicate HolderOk(rules: Rules, guards: map<Role, Permission>, role: Role, p: Permission) {
    rules.Can(role, p) ==> role in guards && rules.Can(role, rules.manageUsers)
  }

  ghost predicate GuardsOk(rules: Rules, guards: map<Role, Permission>) {
    && guards != map[]
    && (forall r :: r in guards ==> rules.Valid(r) && guards[r] != "")
    && (forall r, role :: r in guards ==> HolderOk(rules, guards, role, guards[r]))
    && (forall r :: r in guards ==> exists role :: rules.Can(role, guards[r]))
  }

  class PermissionTable {
    const manageUsers: Permission
    const adminRole: Role
    var st: TableState

    constructor (manageUsers: Permission, adminRole: Role, st: TableState)
      ensures Current() == Rules(manageUsers, adminRole, st)
    {
      this.manageUsers := manageUsers;
      this.adminRole := adminRole;
      this.st := st;
    }

    /** One load of the state pointer. */
    function Current(): Rules
      reads this
    {
      Rules(manageUsers, adminRole, st)
    }

    static method New(table: map<Role, seq<Permission>>, manageUsers: Permission, adminRole: Role)
      returns (r: Result<PermissionTable, TableError>)
      ensures r.Ok? <==> BuildOk(table, manageUsers, adminRole)
      ensures r.Ok? ==>
                && fresh(r.value)
                && r.value.Current() == Rules(manageUsers, adminRole, TableState(Listed(table), [], map[]))
                && r.value.Current().WellFormed()
    {
      if |table| == 0 {
        return Err(NoRoles);
      }
      if manageUsers == "" {
        return Err(NoManageUsers);
      }
      var perms: map<Role, set<Permission>> := map[];
      var todo := table.Keys;
      while todo != {}
        invariant todo <= table.Keys
        invariant perms.Keys == table.Keys - todo
        invariant forall role :: role in perms ==>
            role != "" && "" !in table[role] && perms[role] == set p | p in table[role]
        decreases |todo|
      {
        var role :| role in todo;
        if role == "" {
          return Err(EmptyRole);
        }
        if "" in table[role] {
          return Err(EmptyPermission);
        }
        perms := perms[role := set p | p in table[role]];
        todo := todo - {role};
      }
      assert perms == Listed(table);
      if adminRole !in perms {
        return Err(UnknownAdminRole);
      }
      if manageUsers !in perms[adminRole] {
        return Err(AdminCannotManage);
      }
      var t := new PermissionTable(manageUsers, adminRole, TableState(perms, [], map[]));
      return Ok(t);
    }

    method WithProtectedRoles(roles: seq<Role>) returns (r: Result<PermissionTable, TableError>)
      ensures r.Ok? <==> roles != [] && forall x :: x in roles ==> Current().Valid(x)
      ensures r.Ok? ==>
                && fresh(r.value)
                && r.value.Current() == Current().(st := st.(protectedRoles := roles))
                && (Current().WellFormed() ==> r.value.Current().WellFormed())
    {
      if |roles| == 0 {
        return Err(NoProtectedRoles);
      }
      for i := 0 to |roles|
        invariant forall j :: 0 <= j < i ==> Current().Valid(roles[j])
      {
        if !Current().Valid(roles[i]) {
          return Err(UnknownRole);
        }
      }
      var c := new PermissionTable(manageUsers, adminRole, st.(protectedRoles := roles));
      GuardsOkIgnoresOptions(Current(), c.Current(), st.guards);
      return Ok(c);
    }

    method WithRoleGuards(guards: map<Role, Permission>) returns (r: Result<PermissionTable, TableError>)
      ensures r.Ok? <==> GuardsOk(Current(), guards)
      ensures r.Ok? ==>
                && fresh(r.value)
                && r.value.Current() == Current().(st := st.(guards := guards))
                && (Current().WellFormed() ==> r.value.Current().WellFormed())
    {
      if |guards| == 0 {
        return Err(NoGuards);
      }
      var perms: set<Permission> := {};
      var todo := guards.Keys;
      while todo != {}
        invariant todo <= guards.Keys
        invariant forall x :: x in guards && x !in todo ==> Current().Valid(x) && guards[x] != "" && guards[x] in perms
        invariant forall p :: p in perms ==> exists x :: x in guards && guards[x] == p
        decreases |todo|
      {
        var x :| x in todo;
        if !Current().Valid(x) {
          return Err(UnknownRole);
        }
        if guards[x] == "" {
          return Err(EmptyGuard);
        }
        perms := perms + {guards[x]};
        todo := todo - {x};
      }
      var left := perms;
      while left != {}
        invariant left <= perms
        invariant forall p, role :: p in perms && p !in left ==> HolderOk(Current(), guards, role, p)
        invariant forall p :: p in perms && p !in left ==> exists role :: Current().Can(role, p)
        decreases |left|
      {
        var p :| p in left;
        var holders := CheckHolders(guards, p);
        match holders {
          case Err(e) => return Err(e);
          case Ok(n) =>
            if n == 0 {
              return Err(NoHolder);
            }
        }
        left := left - {p};
      }
      assert GuardsOk(Current(), guards);
      var c := new PermissionTable(manageUsers, adminRole, st.(guards := guards));
      GuardsOkIgnoresOptions(Current(), c.Current(), guards);
      return Ok(c);
    }

    /** The inner loop of WithRoleGuards: counts the roles carrying `p`. */
    method CheckHolders(guards: map<Role, Permission>, p: Permission) returns (r: Result<nat, TableError>)
      ensures r.Ok? <==> forall role :: HolderOk(Current(), guards, role, p)
      ensures r.Ok? ==> (r.value == 0 <==> forall role :: !Current().Can(role, p))
    {
      var holders := 0;
      var todo := st.perms.Keys;
      while todo != {}
        invariant todo <= st.perms.Keys
        invariant forall role :: role !in todo ==> HolderOk(Current(), guards, role, p)
        invariant holders == 0 ==> forall role :: role !in todo ==> !Current().Can(role, p)
        invariant holders > 0 ==> exists role :: Current().Can(role, p)
        decreases |todo|
      {
        var role :| role in todo;
        todo := todo - {role};
        if p in st.perms[role] {
          assert Current().Can(role, p);
          holders := holders + 1;
          if role !in guards {
            assert !HolderOk(Current(), guards, role, p);
            return Err(HolderNotGuarded);
          }
          if manageUsers !in st.perms[role] {
            assert !HolderOk(Current(), guards, role, p);
            return Err(HolderCannotManage);
          }
        }
      }
      return Ok(holders);
    }

    method WithPrivilegedRoles(manage: Permission, roles: seq<Role>) returns (r: Result<PermissionTable, TableError>)
      ensures r.Ok? <==> GuardsOk(Current(), map x | x in roles :: manage)
      ensures r.Ok? ==>
                && fresh(r.value)
                && r.value.Current() == Current().(st := st.(guards := map x | x in roles :: manage))
                && (Current().WellFormed() ==> r.value.Current().WellFormed())
    {
      ghost var all := map x | x in roles :: manage;
      if manage == "" {
        assert forall x :: x in all ==> all[x] == "";
        assert all == map[] || exists x :: x in all;
        return Err(EmptyGuard);
      }
      if |roles| == 0 {
        return Err(NoGuards);
      }
      var guards: map<Role, Permission> := map[];
      for i := 0 to |roles|
        invariant guards == map x | x in roles[..i] :: manage
      {
        guards := guards[roles[i] := manage];
      }
      assert guards == all by {
        assert roles[..|roles|] == roles;
      }
      r := this.WithRoleGuards(guards);
    }

    method Replace(next: PermissionTable?) returns (err: Option<TableError>)
      modifies this
      ensures err.None? <==> next != null && next.manageUsers == manageUsers && next.adminRole == adminRole
      ensures err.None? ==> Current() == old(next.Current())
      ensures err.Some? ==> Current() == old(Current())
    {
      if next == null {
        return Some(NeedTwoTables);
      }
      if next.manageUsers != manageUsers || next.adminRole != adminRole {
        return Some(AnchorsChanged);
      }
      st := next.st;
      return None;
    }
  }

  /** The guard check looks at roles and permissions only. */
  lemma GuardsOkIgnoresOptions(a: Rules, b: Rules, guards: map<Role, Permission>)
    requires a.manageUsers == b.manageUsers && a.st.perms == b.st.perms
    ensures GuardsOk(a, guards) <==> GuardsOk(b, guards)
  {
    assert forall role :: a.PermsOf(role) == b.PermsOf(role);
    assert forall role, p :: HolderOk(a, guards, role, p) <==> HolderOk(b, guards, role, p);
    assert forall role, p :: a.Can(role, p) <==> b.Can(role, p);
  }

  // ---- API keys never escalate ------------------------------------------------

  /** AtMost never exceeds either argument, and loses nothing it need not:
      comparable roles give back the weaker of the two. */
  lemma AtMostIsTheMeet(rules: Rules, role: Role, ceiling: Role)
    requires rules.WellFormed()
    ensures rules.PermsOf(rules.AtMost(role, ceiling)) <= rules.PermsOf(role) * rules.PermsOf(ceiling)
    ensures rules.PermsOf(role) <= rules.PermsOf(ceiling) ==>
              rules.PermsOf(rules.AtMost(role, ceiling)) == rules.PermsOf(role)
    ensures rules.PermsOf(ceiling) <= rules.PermsOf(role) ==>
              rules.PermsOf(rules.AtMost(role, ceiling)) == rules.PermsOf(ceiling)
  {
    assert rules.PermsOf("") == {};
  }

  /** The role a key is given when `requested` is asked for by `owner`
      (MintAPIKey's clamp, admin.go:706-709). */
  function KeyRole(rules: Rules, owner: Role, requested: Role): Role {
    rules.AtMost(if rules.Valid(requested) then requested else owner, owner)
  }

  /** The role at the end of a chain of keys, each minted by the one before. */
  function ChainRole(rules: Rules, owner: Role, requests: seq<Role>): Role {
    if requests == [] then owner
    else KeyRole(rules, ChainRole(rules, owner, requests[..|requests| - 1]), requests[|requests| - 1])
  }

  /** However long the chain, its last key carries no permission its first
      owner lacked, and none that was not asked for at some link. */
  lemma {:induction false} KeyChainNeverEscalates(rules: Rules, owner: Role, requests: seq<Role>)
    requires rules.WellFormed()
    ensures rules.PermsOf(ChainRole(rules, owner, requests)) <= rules.PermsOf(owner)
    ensures forall i :: 0 <= i < |requests| && rules.Valid(requests[i]) ==>
                          rules.PermsOf(ChainRole(rules, owner, requests)) <= rules.PermsOf(requests[i])
  {
    if requests != [] {
      var init, last := requests[..|requests| - 1], requests[|requests| - 1];
      KeyChainNeverEscalates(rules, owner, init);
      var before := ChainRole(rules, owner, init);
      AtMostIsTheMeet(rules, if rules.Valid(last) then last else before, before);
      forall i | 0 <= i < |requests| && rules.Valid(requests[i])
        ensures rules.PermsOf(ChainRole(rules, owner, requests)) <= rules.PermsOf(requests[i])
      {
        if i < |requests| - 1 {
          assert requests[i] == init[i];
        }
      }
    }
  }
}
