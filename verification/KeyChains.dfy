/** Chains of API keys over runs: each minted under an identity resolved from the
    one before it (admin.go:702-740; authenticator.go:655-678). */
module KeyChains {
  import opened Roles
  import opened State
  import opened System
  import opened Minted
  import Keys = KeyDeath

  /** Step i mints a key. */
  ghost predicate Mints(run: Run, i: nat)
    requires run.Shaped()
  {
    && i < |run.steps| && run.steps[i].op.Admin? && run.steps[i].op.admin.MintAPIKey?
    && run.outcomes[i].KeyMinted?
  }

  /** The key minted at step i, and the role asked for. */
  ghost function KeyAt(run: Run, i: nat): string
    requires run.Shaped() && Mints(run, i)
  {
    run.steps[i].op.admin.key
  }

  ghost function RequestAt(run: Run, i: nat): Role
    requires run.Shaped() && Mints(run, i)
  {
    run.steps[i].op.admin.requested
  }

  /** Step i is taken under an identity an earlier step resolved from the key. */
  ghost predicate ActsByKey(run: Run, i: nat, key: string)
    requires run.Shaped() && i < |run.steps|
  {
    exists j :: 0 <= j < i && run.steps[j].op == Sign(AuthenticateAPIKey(key))
             && run.outcomes[j] == Resolved(run.steps[i].actor)
  }

  /** Minting steps, each but the first taken by the key minted at the one before
      it. */
  ghost predicate Chain(run: Run, at: seq<nat>)
    requires run.Shaped()
    decreases |at|
  {
    && at != [] && Mints(run, Last(at))
    && (|at| > 1 ==> Chain(run, Front(at)) && ActsByKey(run, Last(at), KeyAt(run, Last(Front(at)))))
  }

  function Last(at: seq<nat>): nat
    requires at != []
  {
    at[|at| - 1]
  }

  function Front(at: seq<nat>): (r: seq<nat>)
    requires at != []
    ensures |r| == |at| - 1 && r < at
  {
    at[..|at| - 1]
  }

  /** The roles asked for along the chain. */
  ghost function Requests(run: Run, at: seq<nat>): (r: seq<Role>)
    requires run.Shaped() && Chain(run, at)
    ensures |r| == |at|
    decreases |at|
  {
    (if |at| > 1 then Requests(run, Front(at)) else []) + [RequestAt(run, Last(at))]
  }

  ghost predicate UnderOneTable(run: Run, rules: Rules) {
    forall i :: 0 <= i < |run.steps| ==> run.steps[i].rules == rules
  }

  /** Wherever a minted key is found, it belongs to its minter and has the role
      the clamp gave it. */
  lemma MintedKeyIs(run: Run, i: nat, n: nat)
    requires run.Valid() && Tidy(run.states[0]) && Mints(run, i)
    requires n < |run.states| && KeyAt(run, i) in run.states[n].accounts.keys
    ensures var step, row := run.steps[i], run.states[n].accounts.keys[KeyAt(run, i)];
            && row.user == step.actor.user
            && row.role == KeyRole(step.rules, step.actor.role, RequestAt(run, i))
  {
    assert run.Takes(i);
    if n <= i {
      RunGrows(run, 0, n);
      RunGrows(run, n, i);
    } else {
      Keys.RoleForLife(run, i + 1, n, KeyAt(run, i));
    }
  }

  lemma ResolvedFrom(run: Run, j: nat, key: string, actor: Identity)
    requires run.Valid() && j < |run.steps| && run.steps[j].op == Sign(AuthenticateAPIKey(key))
    requires run.outcomes[j] == Resolved(actor)
    ensures key in run.states[j].accounts.keys
    ensures actor.user == run.states[j].accounts.keys[key].user && actor.role == run.states[j].accounts.keys[key].role
  {
    assert run.Takes(j);
  }

  /** The last key of a chain belongs to whoever minted the first one, and its role
      is the clamp folded over what was asked for along the chain. */
  lemma {:induction false} ChainFolds(run: Run, rules: Rules, at: seq<nat>, n: nat)
    requires run.Valid() && Tidy(run.states[0]) && UnderOneTable(run, rules) && Chain(run, at)
    requires n < |run.states| && KeyAt(run, Last(at)) in run.states[n].accounts.keys
    ensures Mints(run, at[0])
    ensures var first, row := run.steps[at[0]].actor, run.states[n].accounts.keys[KeyAt(run, Last(at))];
            row.user == first.user && row.role == ChainRole(rules, first.role, Requests(run, at))
    decreases |at|
  {
    var i := Last(at);
    MintedKeyIs(run, i, n);
    if |at| == 1 {
      assert Requests(run, at)[..0] == [];
    } else {
      var before := Front(at);
      var parent, actor := KeyAt(run, Last(before)), run.steps[i].actor;
      var j: nat :| j < i && run.steps[j].op == Sign(AuthenticateAPIKey(parent)) && run.outcomes[j] == Resolved(actor);
      ResolvedFrom(run, j, parent, actor);
      ChainFolds(run, rules, before, j);
      assert Requests(run, at)[..|before|] == Requests(run, before);
    }
  }

  /** Keys never escalate, over whole runs. However long the chain and whatever
      happens between its steps, its last key is the first minter's own and
      carries no permission that minter lacked, and none left out of a known
      role asked for on the way. */
  lemma ChainsNeverEscalate(run: Run, rules: Rules, at: seq<nat>, n: nat)
    requires run.Valid() && Tidy(run.states[0]) && UnderOneTable(run, rules) && rules.WellFormed()
    requires Chain(run, at)
    requires n < |run.states| && KeyAt(run, Last(at)) in run.states[n].accounts.keys
    ensures Mints(run, at[0])
    ensures var first, row := run.steps[at[0]].actor, run.states[n].accounts.keys[KeyAt(run, Last(at))];
            && row.user == first.user
            && rules.PermsOf(row.role) <= rules.PermsOf(first.role)
            && (forall t :: 0 <= t < |at| && rules.Valid(Requests(run, at)[t]) ==>
                  rules.PermsOf(row.role) <= rules.PermsOf(Requests(run, at)[t]))
  {
    ChainFolds(run, rules, at, n);
    KeyChainNeverEscalates(rules, run.steps[at[0]].actor.role, Requests(run, at));
  }

  /** A key minted under another, be that one minted in the run or there before
      it, is the same account's and carries no permission the other lacks under
      the table it was minted by, in whatever states the two are looked at. */
  lemma KeyWithinItsParent(run: Run, rules: Rules, i: nat, parent: string, m: nat, n: nat)
    requires run.Valid() && Tidy(run.states[0])
    requires Mints(run, i) && rules == run.steps[i].rules && rules.WellFormed()
    requires ActsByKey(run, i, parent)
    requires m < |run.states| && parent in run.states[m].accounts.keys
    requires n < |run.states| && KeyAt(run, i) in run.states[n].accounts.keys
    ensures var above, below := run.states[m].accounts.keys[parent], run.states[n].accounts.keys[KeyAt(run, i)];
            below.user == above.user && rules.PermsOf(below.role) <= rules.PermsOf(above.role)
  {
    var actor, requested := run.steps[i].actor, RequestAt(run, i);
    var j: nat :| j < i && run.steps[j].op == Sign(AuthenticateAPIKey(parent)) && run.outcomes[j] == Resolved(actor);
    ResolvedFrom(run, j, parent, actor);
    if m <= j {
      Keys.RoleForLife(run, m, j, parent);
    } else {
      Keys.RoleForLife(run, j, m, parent);
    }
    MintedKeyIs(run, i, n);
    AtMostIsTheMeet(rules, if rules.Valid(requested) then requested else actor.role, actor.role);
  }
}
