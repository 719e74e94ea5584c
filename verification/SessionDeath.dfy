/** Sessions end, on time and for good (authenticator.go:276-305, 578-640, 685-702;
    admin.go:375-438; store.go:73-107). */
module SessionDeath {
  import opened Prelude
  import opened Roles
  import opened State
  import opened System
  import opened Minted
  import opened Sessions
  import Logins = LoginRules
  import Frames

  // ---- The two windows, from the deployment's rule alone ------------------------------

  /** How long a session may sit idle: what the rule says first, or twelve hours. */
  function IdleWindow(env: Env, p: Profile): Time {
    if env.lifetimes.Some? && env.lifetimes.value(p).0 > 0 then env.lifetimes.value(p).0 else 43_200_000_000_000
  }

  /** How long it may last: what the rule says second, or seven days, and never less
      than it may sit idle. */
  function AbsoluteWindow(env: Env, p: Profile): Time {
    var wanted :=
      if env.lifetimes.Some? && env.lifetimes.value(p).1 > 0 then env.lifetimes.value(p).1 else 604_800_000_000_000;
    if wanted < IdleWindow(env, p) then IdleWindow(env, p) else wanted
  }

  /** What the rule is asked about. */
  function Asked(db: Db, id: string): Profile
    requires id in db.accounts.users
  {
    var u := db.accounts.users[id];
    Profile(id, u.org, u.email, u.role)
  }

  /** Whatever rule a deployment configures, the idle window comes first, the
      absolute second, and 0 < idle <= absolute. */
  lemma LifetimesArePositive(env: Env, p: Profile)
    ensures Logins.SessionLifetimes(env, p) == (IdleWindow(env, p), AbsoluteWindow(env, p))
    ensures 0 < IdleWindow(env, p) <= AbsoluteWindow(env, p)
  {
  }

  /** A drawn token that is revoked, expired or without a row as of some instant. */
  ghost predicate Gone(db: Db, at: Time, t: string) {
    && t in db.minted
    && (t in db.sessions ==>
          db.sessions[t].revoked || db.sessions[t].expiresAt <= at || db.sessions[t].absoluteExpiresAt <= at)
  }

  lemma StepKeepsGone(env: Env, before: Db, step: Step, at: Time, t: string)
    requires Tidy(before) && Gone(before, at, t) && at <= step.now
    ensures Gone(Next(env, before, step).0, at, t)
  {
    AnyStep(env, before, step, t);
    StepGrows(env, before, step);
  }

  lemma RunStepKeepsGone(run: Run, k: nat, at: Time, t: string)
    requires run.Valid() && Tidy(run.states[0]) && k < |run.steps|
    requires Gone(run.states[k], at, t) && at <= run.steps[k].now
    ensures Gone(run.states[k + 1], at, t)
  {
    RunGrows(run, 0, k);
    StepKeepsGone(run.env, run.states[k], run.steps[k], at, t);
    assert run.Takes(k);
  }

  lemma {:induction false} GoneForever(run: Run, i: nat, j: nat, t: string)
    requires run.Valid() && Tidy(run.states[0]) && i < |run.steps| && i <= j < |run.states|
    requires Gone(run.states[i], run.steps[i].now, t)
    ensures Gone(run.states[j], run.steps[i].now, t)
  {
    if i < j {
      GoneForever(run, i, j - 1, t);
      RunStepKeepsGone(run, j - 1, run.steps[i].now, t);
    }
  }

  // ---- A disabled account has no live session to revive -------------------------------

  ghost predicate SettledFor(db: Db, t: string) {
    t in db.sessions ==>
      && db.sessions[t].user in db.accounts.users
      && (db.accounts.users[db.sessions[t].user].disabled ==> db.sessions[t].revoked)
  }

  ghost predicate Settled(db: Db) {
    forall t :: t in db.sessions ==> SettledFor(db, t)
  }

  lemma RemovalSettles(env: Env, before: Db, rules: Rules, actor: Identity, op: AdminOp, t: string)
    requires SettledFor(before, t)
    requires op.DisableUser? || op.EnableUser? || op.DeleteUser? || op.SetRole?
    ensures SettledFor(AdminNext(env, before, rules, actor, op).0, t)
  {
  }

  lemma AdminSettles(env: Env, before: Db, rules: Rules, actor: Identity, op: AdminOp, t: string)
    requires SettledFor(before, t) && Tidy(before)
    ensures SettledFor(AdminNext(env, before, rules, actor, op).0, t)
  {
    if op.DisableUser? || op.EnableUser? || op.DeleteUser? || op.SetRole? {
      RemovalSettles(env, before, rules, actor, op, t);
    } else {
      AdminSessions(env, before, rules, actor, op, t);
      if t in before.sessions {
        Frames.UserKept(env, before, rules, actor, op, before.sessions[t].user);
      }
    }
  }

  lemma SameAccountsSettle(env: Env, before: Db, after: Db, step: Step, outcome: Outcome, t: string)
    requires SettledFor(before, t) && Frames.SameAccounts(before.accounts, after.accounts)
    requires SessionStep(env, before, after, step, outcome, t)
    ensures SettledFor(after, t)
  {
  }

  lemma StepSettles(env: Env, before: Db, step: Step, t: string)
    requires SettledFor(before, t) && Tidy(before)
    ensures SettledFor(Next(env, before, step).0, t)
  {
    var (after, outcome) := Next(env, before, step);
    match step.op {
      case Admin(op) => AdminSettles(env, before, step.rules, step.actor, op, t);
      case Sign(op) =>
        Frames.LoginFrame(env, before, step.now, step.actor, op);
        AnyStep(env, before, step, t);
        SameAccountsSettle(env, before, after, step, outcome, t);
      case Factor(op) =>
        Frames.FactorFrame(env, before, step.now, step.rules, step.actor, op);
    }
  }

  lemma {:induction false} RunSettles(run: Run, i: nat, j: nat, t: string)
    requires run.Valid() && i <= j < |run.states| && Tidy(run.states[i]) && SettledFor(run.states[i], t)
    ensures SettledFor(run.states[j], t)
  {
    if i < j {
      RunSettles(run, i, j - 1, t);
      RunGrows(run, i, j - 1);
      StepSettles(run.env, run.states[j - 1], run.steps[j - 1], t);
      assert run.Takes(j - 1);
    }
  }

  /** Death is final: a token that was ever drawn and is once refused is refused
      at every later instant, whatever happens in between, re-enabling the account
      included. */
  lemma DeathIsFinal(run: Run, i: nat, j: nat, t: string)
    requires run.Valid() && Tidy(run.states[0]) && Settled(run.states[0])
    requires i <= j < |run.steps| && t in run.states[i].minted
    requires !Live(run.states[i], run.steps[i].now, t)
    ensures !Live(run.states[j], run.steps[j].now, t)
  {
    RunGrows(run, 0, i);
    RunSettles(run, 0, i, t);
    assert Gone(run.states[i], run.steps[i].now, t);
    GoneForever(run, i, j, t);
  }

  // ---- What ends sessions --------------------------------------------------------------

  /** The step ends every session of the account: it is disabled or deleted, or
      its password is changed or reset. */
  predicate EndsSessionsOf(step: Step, outcome: Outcome, user: string) {
    && step.op.Admin? && outcome == Done
    && match step.op.admin
       case DisableUser(id) => id == user
       case DeleteUser(id) => id == user
       case ResetPassword(id, _, _) => id == user
       case ChangePassword(_, _, _) => step.actor.user == user
       case _ => false
  }

  lemma EndingStep(env: Env, before: Db, step: Step, t: string)
    requires t in before.sessions && t in before.minted && SettledFor(before, t)
    requires EndsSessionsOf(step, Next(env, before, step).1, before.sessions[t].user)
    ensures Gone(Next(env, before, step).0, step.now, t)
  {
    StepGrows(env, before, step);
    EndedByAdmin(env, before, step.rules, step.actor, step.op.admin, t);
  }

  lemma EndedByAdmin(env: Env, before: Db, rules: Rules, actor: Identity, op: AdminOp, t: string)
    requires t in before.sessions && SettledFor(before, t)
    requires AdminNext(env, before, rules, actor, op).1 == Done
    requires match op
             case DisableUser(id) => id == before.sessions[t].user
             case DeleteUser(id) => id == before.sessions[t].user
             case ResetPassword(id, _, _) => id == before.sessions[t].user
             case ChangePassword(_, _, _) => actor.user == before.sessions[t].user
             case _ => false
    ensures var after := AdminNext(env, before, rules, actor, op).0;
            t in after.sessions ==> after.sessions[t].revoked
  {
  }

  lemma LogoutStep(env: Env, before: Db, step: Step, t: string)
    requires step.op == Sign(Logout(t)) && t in before.minted && SettledFor(before, t)
    ensures Gone(Next(env, before, step).0, step.now, t)
  {
  }

  /** Disabling or deleting an account, changing or resetting its password, and
      logging out end the sessions they name for good. */
  lemma EndedForGood(run: Run, i: nat, j: nat, t: string)
    requires run.Valid() && Tidy(run.states[0]) && Settled(run.states[0])
    requires i < j < |run.steps| && t in run.states[i].sessions
    requires || run.steps[i].op == Sign(Logout(t))
             || EndsSessionsOf(run.steps[i], run.outcomes[i], run.states[i].sessions[t].user)
    ensures !Live(run.states[j], run.steps[j].now, t)
  {
    RunGrows(run, 0, i);
    RunSettles(run, 0, i, t);
    EndedAfter(run, i, t);
    GoneForever(run, i + 1, j, t);
  }

  lemma EndedAfter(run: Run, i: nat, t: string)
    requires run.Valid() && i < |run.steps| && t in run.states[i].sessions && t in run.states[i].minted
    requires SettledFor(run.states[i], t)
    requires || run.steps[i].op == Sign(Logout(t))
             || EndsSessionsOf(run.steps[i], run.outcomes[i], run.states[i].sessions[t].user)
    ensures Gone(run.states[i + 1], run.steps[i].now, t)
  {
    assert run.Takes(i);
    if run.steps[i].op == Sign(Logout(t)) {
      LogoutStep(run.env, run.states[i], run.steps[i], t);
    } else {
      EndingStep(run.env, run.states[i], run.steps[i], t);
    }
  }

  // ---- What keeps them alive -----------------------------------------------------------

  /** A session is live from its issue to the end of its idle window. */
  lemma IssuedSessionIsLive(env: Env, db: Db, now: Time, id: string, token: string, later: Time)
    requires Enabled(db, id) && token !in db.minted && now <= later
    ensures var after := Logins.IssueSession(env, db, now, id, token).0;
            && token in after.sessions
            && after.sessions[token] == Session(id, now + IdleWindow(env, Asked(db, id)),
                                                now + AbsoluteWindow(env, Asked(db, id)), false, None)
            && (Live(after, later, token) <==> later < now + IdleWindow(env, Asked(db, id)))
  {
    LifetimesArePositive(env, ProfileOf(db, id));
  }

  /** Using a live session keeps it live for a further idle window, up to its
      ceiling and no further. */
  lemma UsedSessionIsLive(env: Env, db: Db, now: Time, t: string, later: Time)
    requires t != "" && Live(db, now, t) && now <= later
    ensures var after := Logins.AuthenticateSession(env, db, now, t).0;
            var s := db.sessions[t];
            Live(after, later, t) <==>
            later < now + IdleWindow(env, Asked(db, s.user)) && later < s.absoluteExpiresAt
  {
    LifetimesArePositive(env, ProfileOf(db, db.sessions[t].user));
  }

  // ---- Bounds ------------------------------------------------------------------------

  predicate TouchedAt(run: Run, k: nat, t: string)
    requires run.Shaped() && k < |run.steps|
  {
    Touches(run.steps[k], run.outcomes[k], t)
  }

  function IdleAt(run: Run, k: nat, user: string): Time
    requires run.Shaped() && k < |run.steps| && user in run.states[k].accounts.users
  {
    IdleWindow(run.env, Asked(run.states[k], user))
  }

  function CeilingAt(run: Run, k: nat, user: string): Time
    requires run.Shaped() && k < |run.steps| && user in run.states[k].accounts.users
  {
    AbsoluteWindow(run.env, Asked(run.states[k], user))
  }

  function Earlier(a: Time, b: Time): Time {
    if a < b then a else b
  }

  /** The clocks of a session as of state n: `b` issued it, `l` is the last step
      that used it, or `b` itself. */
  ghost predicate Clocks(run: Run, n: nat, t: string, b: nat, l: nat)
    requires run.Shaped() && n < |run.states| && t in run.states[n].sessions
  {
    var s := run.states[n].sessions[t];
    && b <= l < n
    && run.outcomes[b] == SessionIssued(t)
    && (l == b || TouchedAt(run, l, t))
    && (forall k :: l < k < n ==> !TouchedAt(run, k, t))
    && s.user in run.states[b].accounts.users && s.user in run.states[l].accounts.users
    && s.absoluteExpiresAt == run.steps[b].now + CeilingAt(run, b, s.user)
    && s.expiresAt == Earlier(run.steps[l].now + IdleAt(run, l, s.user), s.absoluteExpiresAt)
  }

  lemma ClocksOfTheNew(run: Run, n: nat, t: string)
    requires run.Shaped() && n < |run.steps| && t in run.states[n + 1].sessions
    requires Fresh(run.env, run.states[n], run.steps[n], run.outcomes[n], t, run.states[n + 1].sessions[t])
    ensures Clocks(run, n + 1, t, n, n)
  {
    LifetimesArePositive(run.env, ProfileOf(run.states[n], run.states[n + 1].sessions[t].user));
  }

  lemma ClocksCarried(run: Run, n: nat, t: string, b: nat, l: nat)
    requires run.Shaped() && n < |run.steps| && t in run.states[n].sessions && t in run.states[n + 1].sessions
    requires Clocks(run, n, t, b, l)
    requires Carried(run.env, run.states[n], run.steps[n], run.outcomes[n], t, run.states[n + 1].sessions[t])
    ensures Clocks(run, n + 1, t, b, if TouchedAt(run, n, t) then n else l)
  {
    if TouchedAt(run, n, t) {
      LifetimesArePositive(run.env, ProfileOf(run.states[n], run.states[n].sessions[t].user));
    }
  }

  lemma {:induction false} ClocksExist(run: Run, n: nat, t: string) returns (b: nat, l: nat)
    requires run.Valid() && Tidy(run.states[0]) && n < |run.states|
    requires t !in run.states[0].sessions && t in run.states[n].sessions
    ensures Clocks(run, n, t, b, l)
  {
    RunStep(run, n - 1, t);
    if t in run.states[n - 1].sessions {
      b, l := ClocksExist(run, n - 1, t);
      ClocksCarried(run, n - 1, t, b, l);
      l := if TouchedAt(run, n - 1, t) then n - 1 else l;
    } else {
      ClocksOfTheNew(run, n - 1, t);
      b, l := n - 1, n - 1;
    }
  }

  /** Two clocks: a session issued in the run is live only before the ceiling set
      when it was issued, and only before its last use plus the idle window the
      rule then gave. */
  lemma LiveOnlyWithinBothClocks(run: Run, n: nat, t: string, now: Time) returns (b: nat, l: nat)
    requires run.Valid() && Tidy(run.states[0]) && n < |run.states|
    requires t !in run.states[0].sessions && Live(run.states[n], now, t)
    ensures Clocks(run, n, t, b, l)
    ensures now < run.steps[b].now + CeilingAt(run, b, run.states[n].sessions[t].user)
    ensures now < run.steps[l].now + IdleAt(run, l, run.states[n].sessions[t].user)
  {
    b, l := ClocksExist(run, n, t);
  }
}
