/** Readers of a permission table while Replace runs beside them.

    A table's life is a sequence of versions. A reader loads the state pointer
    once or more; each load sees the version current at that moment. */
module TableReplacement {
  import opened Roles

  /** What one Replace call leaves (role.go:125-135). */
  function AfterReplace(current: Rules, next: Rules): Rules {
    if next.manageUsers != current.manageUsers || next.adminRole != current.adminRole then current
    else current.(st := next.st)
  }

  /** The versions a table goes through when these tables are swapped in. */
  function Versions(first: Rules, nexts: seq<Rules>): (h: seq<Rules>)
    ensures |h| == |nexts| + 1
  {
    if nexts == [] then [first]
    else
      var h := Versions(first, nexts[..|nexts| - 1]);
      h + [AfterReplace(h[|h| - 1], nexts[|nexts| - 1])]
  }

  /** ManageUsers and AdminRole never change, and every version is one table
      that was built and checked as a whole, never a mixture of two. */
  lemma {:induction false} VersionsAreWholeTables(first: Rules, nexts: seq<Rules>)
    requires first.WellFormed() && forall n :: n in nexts ==> n.WellFormed()
    ensures forall v :: v in Versions(first, nexts) ==>
                          && v.manageUsers == first.manageUsers && v.adminRole == first.adminRole
                          && v.WellFormed()
                          && (v == first || v in nexts)
  {
    if nexts != [] {
      VersionsAreWholeTables(first, nexts[..|nexts| - 1]);
      var h := Versions(first, nexts[..|nexts| - 1]);
      assert h[|h| - 1] in h;
    }
  }

  /** A table history: well-formed versions with the same two anchors. */
  ghost predicate History(h: seq<Rules>) {
    && h != []
    && (forall v :: v in h ==>
          v.WellFormed() && v.manageUsers == h[0].manageUsers && v.adminRole == h[0].adminRole)
  }

  /** MayHandle as it executes: `Privileged` loads version a, the guard lookup
      loads version b, and `Can` loads version c (role.go:360-365). */
  predicate LoadedMayHandle(h: seq<Rules>, a: nat, b: nat, c: nat, caller: Role, role: Role)
    requires a <= b <= c < |h|
  {
    !h[a].Privileged(role) || h[c].Can(caller, h[b].GuardOf(role))
  }

  /** The answer is the answer of some version current during the call. */
  ghost predicate OneVersionAnswers(h: seq<Rules>, a: nat, b: nat, c: nat, caller: Role, role: Role)
    requires a <= b <= c < |h|
  {
    exists v: nat :: a <= v <= c && h[v].MayHandle(caller, role) == LoadedMayHandle(h, a, b, c, caller, role)
  }

  /** MayHandle gives the answer of a single version, for every history and
      every pair of roles, exactly when no Replace falls between its loads. */
  lemma MayHandleIsOneVersionIffNoReplaceBetween(a: nat, b: nat, c: nat)
    requires a <= b <= c
    ensures (forall h: seq<Rules>, caller: Role, role: Role ::
               History(h) && c < |h| ==> OneVersionAnswers(h, a, b, c, caller, role))
            <==> a == b == c
  {
    if a == b == c {
      forall h: seq<Rules>, caller: Role, role: Role | History(h) && c < |h|
        ensures OneVersionAnswers(h, a, b, c, caller, role)
      {
        assert h[a].MayHandle(caller, role) == LoadedMayHandle(h, a, b, c, caller, role);
      }
    } else if a < b {
      RefusesWhatBothAllow(a, b, c);
    } else {
      AllowsWhatBothRefuse(a, b, c);
    }
  }

  const MANAGE: Permission := "users:manage"
  const ADMINS: Permission := "users:manage_admins"
  const SUPER: Permission := "users:manage_super"

  function WitnessTable(desk: set<Permission>, guards: map<Role, Permission>): Rules {
    Rules(MANAGE, "boss", TableState(map["boss" := {MANAGE, ADMINS, SUPER}, "desk" := desk], [], guards))
  }

  const BY_ADMINS: Rules := WitnessTable({}, map["boss" := ADMINS])
  const BY_SUPER: Rules := WitnessTable({ADMINS}, map["boss" := SUPER])
  const UNGUARDED: Rules := WitnessTable({}, map[])

  lemma WitnessTablesAreWellFormed()
    ensures BY_ADMINS.WellFormed() && BY_SUPER.WellFormed() && UNGUARDED.WellFormed()
  {
    assert BY_ADMINS.Can("boss", ADMINS);
    assert BY_SUPER.Can("boss", SUPER);
  }

  /** One version up to and including index k, another after it. */
  function Switch(before: Rules, after: Rules, k: nat, n: nat): (h: seq<Rules>)
    ensures |h| == n
  {
    seq(n, i => if i <= k then before else after)
  }

  /** A guard removed between the first load and the second: both tables let
      the admin role handle itself, and the call says no. */
  lemma RefusesWhatBothAllow(a: nat, b: nat, c: nat)
    requires a < b <= c
    ensures exists h: seq<Rules>, caller: Role, role: Role ::
              && History(h) && c < |h| && !OneVersionAnswers(h, a, b, c, caller, role)
              && !LoadedMayHandle(h, a, b, c, caller, role)
  {
    WitnessTablesAreWellFormed();
    var h := Switch(BY_ADMINS, UNGUARDED, a, c + 1);
    assert !LoadedMayHandle(h, a, b, c, "boss", "boss");
    assert !OneVersionAnswers(h, a, b, c, "boss", "boss");
    assert History(h);
  }

  /** A guard renamed between the lookup and the check: neither table lets the
      desk role handle the admin role, and the call says yes. */
  lemma AllowsWhatBothRefuse(a: nat, b: nat, c: nat)
    requires a == b < c
    ensures exists h: seq<Rules>, caller: Role, role: Role ::
              && History(h) && c < |h| && !OneVersionAnswers(h, a, b, c, caller, role)
              && LoadedMayHandle(h, a, b, c, caller, role)
  {
    WitnessTablesAreWellFormed();
    var h := Switch(BY_ADMINS, BY_SUPER, b, c + 1);
    assert LoadedMayHandle(h, a, b, c, "desk", "boss");
    assert ADMINS != SUPER;
    assert !OneVersionAnswers(h, a, b, c, "desk", "boss");
    assert History(h);
  }
}
