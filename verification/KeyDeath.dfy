/** API keys over runs: a role for life, and no way back from revocation
    (admin.go:702-763; authenticator.go:655-678). */
module KeyDeath {
  import opened Roles
  import opened State
  import opened System
  import opened Minted
  import Frames

  /** What a step does to a key: it keeps its owner and its role, and is not
      unrevoked; a new one is under a value never drawn before. */
  ghost predicate KeyStep(before: Db, after: Db, k: string) {
    k in after.accounts.keys ==>
      if k in before.accounts.keys then
        && after.accounts.keys[k].user == before.accounts.keys[k].user
        && after.accounts.keys[k].role == before.accounts.keys[k].role
        && (before.accounts.keys[k].revoked ==> after.accounts.keys[k].revoked)
      else k !in before.minted
  }

  lemma AdminKeyStep(env: Env, before: Db, rules: Rules, actor: Identity, op: AdminOp, k: string)
    requires Tidy(before)
    ensures KeyStep(before, AdminNext(env, before, rules, actor, op).0, k)
  {
    if Frames.Stores(op) {
      Frames.StoringFrame(env, before, rules, actor, op);
    } else if Frames.Targets(op) {
      Frames.TargetedFrame(env, before, rules, actor, op);
    }
  }

  lemma AnyKeyStep(env: Env, before: Db, step: Step, k: string)
    requires Tidy(before)
    ensures KeyStep(before, Next(env, before, step).0, k)
  {
    match step.op {
      case Admin(op) => AdminKeyStep(env, before, step.rules, step.actor, op, k);
      case Sign(op) => Frames.LoginFrame(env, before, step.now, step.actor, op);
      case Factor(op) => Frames.FactorFrame(env, before, step.now, step.rules, step.actor, op);
    }
  }

  lemma RunKeyStep(run: Run, i: nat, k: string)
    requires run.Valid() && Tidy(run.states[0]) && i < |run.steps|
    ensures KeyStep(run.states[i], run.states[i + 1], k)
    ensures run.states[i].minted <= run.states[i + 1].minted
  {
    RunGrows(run, 0, i);
    StepGrows(run.env, run.states[i], run.steps[i]);
    AnyKeyStep(run.env, run.states[i], run.steps[i], k);
    assert run.Takes(i);
  }

  /** A drawn key that is revoked, or went with its owner. */
  ghost predicate KeyGone(db: Db, k: string) {
    k in db.minted && (k in db.accounts.keys ==> db.accounts.keys[k].revoked)
  }

  lemma {:induction false} KeyGoneForever(run: Run, i: nat, j: nat, k: string)
    requires run.Valid() && Tidy(run.states[0]) && i <= j < |run.states| && KeyGone(run.states[i], k)
    ensures KeyGone(run.states[j], k)
  {
    if i < j {
      KeyGoneForever(run, i, j - 1, k);
      RunKeyStep(run, j - 1, k);
    }
  }

  lemma RevokingEnds(env: Env, db: Db, step: Step, k: string)
    requires step.op == Admin(RevokeAPIKey(k)) && Next(env, db, step).1 == Done && Tidy(db)
    ensures KeyGone(Next(env, db, step).0, k)
  {
  }

  /** A key revoked once is refused ever after. */
  lemma RevokedKeyStaysDead(run: Run, i: nat, j: nat, k: string)
    requires run.Valid() && Tidy(run.states[0]) && i < j < |run.states|
    requires run.steps[i].op == Admin(RevokeAPIKey(k)) && run.outcomes[i] == Done
    ensures !LiveKey(run.states[j], k)
  {
    RunGrows(run, 0, i);
    assert run.Takes(i);
    RevokingEnds(run.env, run.states[i], run.steps[i], k);
    KeyGoneForever(run, i + 1, j, k);
  }

  /** As long as it exists a key has the role it was minted with. */
  lemma {:induction false} RoleForLife(run: Run, i: nat, j: nat, k: string)
    requires run.Valid() && Tidy(run.states[0]) && i <= j < |run.states|
    requires k in run.states[i].accounts.keys && k in run.states[j].accounts.keys
    ensures run.states[i].accounts.keys[k].role == run.states[j].accounts.keys[k].role
    ensures run.states[i].accounts.keys[k].user == run.states[j].accounts.keys[k].user
  {
    if i < j {
      RunGrows(run, 0, i);
      RunGrows(run, i, j - 1);
      RunKeyStep(run, j - 1, k);
      RoleForLife(run, i, j - 1, k);
    }
  }
}
