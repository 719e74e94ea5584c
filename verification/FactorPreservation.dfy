/** An account loses its last second factor only deliberately
    (webauthn.go:439-488; stepup.go:43-48, 77-151; mfa.go:304-393, 567-602). */
module FactorPreservation {
  import opened Prelude
  import opened Roles
  import opened State
  import opened System
  import opened Text
  import opened Minted
  import opened Sessions
  import Logins = LoginRules
  import Factors = FactorRules
  import PendingSteps
  import Frames

  // ---- One step ------------------------------------------------------------------------

  /** The last active factor goes. */
  predicate LosesFactor(before: Db, after: Db, user: string) {
    RequiresSecondFactor(before, user) && !RequiresSecondFactor(after, user)
  }

  /** What a caller of RevokeCredential may say of the account's other factors. */
  predicate Truthful(before: Db, step: Step) {
    step.op.Factor? && step.op.factor.RevokeCredential? && step.op.factor.otherFactor ==>
      || HasConfirmedTotp(before, step.actor.user)
      || exists row :: row in KeysOf(before, step.actor.user) && row != step.op.factor.row
  }

  /** The owner revokes the last key from a session re-verified in the last ten
      minutes. */
  predicate RevokesSteppedUp(step: Step, user: string) {
    && step.op.Factor? && step.op.factor.RevokeCredential?
    && step.actor.user == user && Logins.SteppedUp(step.actor, step.now)
  }

  /** The owner switches TOTP off with the account's password. */
  predicate DisablesWithPassword(env: Env, before: Db, step: Step, user: string) {
    && step.op.Factor? && step.op.factor.DisableFactor? && step.actor.user == user
    && user in before.accounts.users
    && env.verify(before.accounts.users[user].hash, step.op.factor.password) == Some(true)
  }

  /** A caller who manages users, in the same organization and senior enough, clears
      the account. Nothing keeps the caller from being its owner. */
  predicate Cleared(before: Db, step: Step, user: string) {
    && step.op == Factor(ClearFactorFor(user))
    && user in before.accounts.users
    && step.rules.Can(step.actor.role, step.rules.manageUsers)
    && before.accounts.users[user].org == step.actor.org
    && step.rules.MayHandle(step.actor.role, before.accounts.users[user].role)
  }

  /** Somebody else clears the account. */
  predicate ClearedByManager(before: Db, step: Step, user: string) {
    Cleared(before, step, user) && step.actor.user != user
  }

  /** The owner clears the account's own factors: with neither password nor
      step-up, on the strength of a role that may act on itself. */
  predicate ClearsOwn(before: Db, step: Step, user: string) {
    Cleared(before, step, user) && step.actor.user == user
  }

  lemma RevokingLoses(before: Db, step: Step, row: string, otherFactor: bool, user: string)
    requires step.op == Factor(RevokeCredential(row, otherFactor)) && Truthful(before, step)
    requires LosesFactor(before, Factors.RevokeCredential(before, step.now, step.actor, row, otherFactor).0, user)
    ensures RevokesSteppedUp(step, user)
  {
    var after := Factors.RevokeCredential(before, step.now, step.actor, row, otherFactor).0;
    forall held | held in KeysOf(before, user)
      ensures held == row
    {
      assert held != row ==> Factors.Holds(after, user, held);
    }
    if HasKeys(before, user) {
      var held :| held in before.factors.credentials && before.factors.credentials[held].user == user;
      assert held in KeysOf(before, user);
      assert KeysOf(before, user) == {row};
    }
  }

  /** Clearing one account leaves the others' factors. */
  lemma ClearingLeavesOthers(before: Db, id: string, user: string)
    requires user != id && RequiresSecondFactor(before, user)
    ensures RequiresSecondFactor(WithoutKeysOf(Factors.WithoutTotp(before, id), id), user)
  {
    var after := WithoutKeysOf(Factors.WithoutTotp(before, id), id);
    if HasKeys(before, user) {
      var row :| row in before.factors.credentials && before.factors.credentials[row].user == user;
      assert row in after.factors.credentials;
    }
  }

  lemma ClearingLoses(before: Db, step: Step, id: string, user: string)
    requires step.op == Factor(ClearFactorFor(id)) && id in before.accounts.users
    requires LosesFactor(before,
                         Factors.ClearFactorFor(step.rules, before, step.actor, id, before.accounts.users[id]).0, user)
    ensures Cleared(before, step, user)
  {
    if user != id {
      ClearingLeavesOthers(before, id, user);
    }
  }

  lemma RegisteringLosesNothing(before: Db, step: Step, challenge: string, created: Option<string>, row: string,
                                user: string)
    requires Tidy(before)
    ensures !LosesFactor(before,
                         Factors.FinishRegistration(before, step.now, step.actor, challenge, created, row).0, user)
  {
    var after := Factors.FinishRegistration(before, step.now, step.actor, challenge, created, row).0;
    if HasKeys(before, user) {
      var held :| held in before.factors.credentials && before.factors.credentials[held].user == user;
      assert held in after.factors.credentials && after.factors.credentials[held].user == user;
    }
  }

  lemma FactorLoses(env: Env, before: Db, step: Step, user: string)
    requires step.op.Factor? && Truthful(before, step) && Tidy(before)
    requires LosesFactor(before,
                         FactorNext(env, before, step.now, step.rules, step.actor, step.op.factor).0, user)
    ensures || RevokesSteppedUp(step, user)
            || DisablesWithPassword(env, before, step, user)
            || Cleared(before, step, user)
  {
    match step.op.factor {
      case RevokeCredential(row, otherFactor) => RevokingLoses(before, step, row, otherFactor, user);
      case ClearFactorFor(id) =>
        if id in before.accounts.users {
          ClearingLoses(before, step, id, user);
        }
      case FinishRegistration(challenge, created, row) =>
        RegisteringLosesNothing(before, step, challenge, created, row, user);
      case _ =>
    }
  }

  lemma SameFactorsLoseNothing(before: Db, after: Db, user: string)
    requires Frames.SameFactors(before.factors, after.factors)
    ensures !LosesFactor(before, after, user)
  {
  }

  /** One step of any kind. */
  lemma StepLoses(env: Env, before: Db, step: Step, user: string)
    requires Tidy(before) && Truthful(before, step) && LosesFactor(before, Next(env, before, step).0, user)
    ensures || RevokesSteppedUp(step, user)
            || DisablesWithPassword(env, before, step, user)
            || Cleared(before, step, user)
  {
    match step.op {
      case Admin(op) =>
        Frames.AdminFrame(env, before, step.rules, step.actor, op);
        SameFactorsLoseNothing(before, Next(env, before, step).0, user);
      case Sign(op) =>
        Frames.LoginFrame(env, before, step.now, step.actor, op);
        SameFactorsLoseNothing(before, Next(env, before, step).0, user);
      case Factor(op) => FactorLoses(env, before, step, user);
    }
  }

  // ---- Clearing one's own account ---------------------------------------------------------

  lemma ClearingIsPermitted(env: Env, db: Db, now: Time, rules: Rules, actor: Identity, user: string)
    requires user in db.accounts.users
    ensures FactorNext(env, db, now, rules, actor, ClearFactorFor(user)).1 == Done
       <==> && rules.Can(actor.role, rules.manageUsers)
            && db.accounts.users[user].org == actor.org
            && rules.MayHandle(actor.role, db.accounts.users[user].role)
  {
  }

  lemma ClearingLeavesNothing(env: Env, db: Db, now: Time, rules: Rules, actor: Identity, user: string)
    requires FactorNext(env, db, now, rules, actor, ClearFactorFor(user)).1 == Done
    ensures !RequiresSecondFactor(FactorNext(env, db, now, rules, actor, ClearFactorFor(user)).0, user)
  {
  }

  /** Acting on oneself is not refused: a caller whose account still has the
      organization and role it was resolved with may clear its own factors exactly
      when that role manages users and may act on itself, and then has none. */
  lemma OwnFactorsClearedIff(env: Env, db: Db, now: Time, rules: Rules, actor: Identity)
    requires actor.user in db.accounts.users
    requires db.accounts.users[actor.user].org == actor.org && db.accounts.users[actor.user].role == actor.role
    ensures var (after, outcome) := FactorNext(env, db, now, rules, actor, ClearFactorFor(actor.user));
            && (outcome == Done <==>
                  rules.Can(actor.role, rules.manageUsers) && rules.MayHandle(actor.role, actor.role))
            && (outcome == Done ==> !RequiresSecondFactor(after, actor.user))
  {
    ClearingIsPermitted(env, db, now, rules, actor, actor.user);
    if FactorNext(env, db, now, rules, actor, ClearFactorFor(actor.user)).1 == Done {
      ClearingLeavesNothing(env, db, now, rules, actor, actor.user);
    }
  }

  const MANAGE := "users:manage"

  /** One role, which manages users and is not guarded. */
  const OPEN_RULES: Rules := Rules(MANAGE, "admin", TableState(map["admin" := {MANAGE}], [], map[]))

  const OWNER: Identity := Identity("u", "org", "admin", "session", None)

  /** An administrator with one security key, and nothing else. */
  const ONE_KEY: Db := Db(
    AccountTables(map["u" := User("org", "u@example.com", "", "", "admin", false)], map[], map[], map[], map[]),
    map[],
    PendingTables(map[], map[]),
    FactorTables(map[], map[], map["row" := Credential("u", "key")]),
    {})

  /** Such an input: an administrator, with no step-up, clears the one key of the
      account, which revoking the key would have refused. */
  lemma OwnerClearsWithoutProof(env: Env, now: Time)
    ensures OPEN_RULES.WellFormed()
    ensures RequiresSecondFactor(ONE_KEY, "u")
    ensures Factors.RevokeCredential(ONE_KEY, now, OWNER, "row", false).1 == Refused(StepUpRequired)
    ensures var (after, outcome) := FactorNext(env, ONE_KEY, now, OPEN_RULES, OWNER, ClearFactorFor("u"));
            outcome == Done && !RequiresSecondFactor(after, "u")
  {
    assert ONE_KEY.factors.credentials["row"].user == "u";
    assert KeysOf(ONE_KEY, "u") == {"row"};
    assert OPEN_RULES.Can("admin", MANAGE);
    OwnFactorsClearedIff(env, ONE_KEY, now, OPEN_RULES, OWNER);
  }

  // ---- Recovery codes ------------------------------------------------------------------

  /** An unused recovery code belongs to a confirmed enrollment. */
  ghost predicate CodesNeedTotp(db: Db, user: string) {
    forall code :: UnusedCode(db, user, code) ==> HasConfirmedTotp(db, user)
  }

  lemma VerifyKeepsCodes(env: Env, db: Db, now: Time, id: string, code: string, user: string)
    requires CodesNeedTotp(db, user)
    ensures CodesNeedTotp(Logins.VerifyFactor(env, db, now, id, code).0, user)
  {
    var after := Logins.VerifyFactor(env, db, now, id, code).0;
    forall c | UnusedCode(after, user, c)
      ensures HasConfirmedTotp(after, user)
    {
      assert UnusedCode(db, user, c);
    }
  }

  lemma SameFactorsKeepCodes(before: Db, after: Db, user: string)
    requires CodesNeedTotp(before, user)
    requires after.factors.enrollments == before.factors.enrollments
    requires after.factors.recovery == before.factors.recovery
    ensures CodesNeedTotp(after, user)
  {
    forall c | UnusedCode(after, user, c)
      ensures HasConfirmedTotp(after, user)
    {
      assert UnusedCode(before, user, c);
    }
  }

  lemma LoginKeepsCodes(env: Env, before: Db, now: Time, actor: Identity, op: LoginOp, user: string)
    requires CodesNeedTotp(before, user)
    ensures CodesNeedTotp(LoginNext(env, before, now, actor, op).0, user)
  {
    var after := LoginNext(env, before, now, actor, op).0;
    match op {
      case CompleteMFA(mfaToken, code, token) => CompleteMFAKeepsCodes(env, before, now, mfaToken, code, token, user);
      case StepUpWithSecret(secret) => StepUpKeepsCodes(env, before, now, actor, secret, user);
      case Login(email, password, salt, token) =>
        var address := Lower(Trim(email));
        if address in before.accounts.emails && before.accounts.emails[address] in before.accounts.users {
          Frames.LoginAsFrame(env, before, now, before.accounts.emails[address], password, salt, token);
        }
        SameFactorsKeepCodes(before, after, user);
      case _ =>
        Frames.QuietFrame(env, before, now, actor, op);
        SameFactorsKeepCodes(before, after, user);
    }
  }

  lemma CompleteMFAKeepsCodes(env: Env, before: Db, now: Time, mfaToken: string, code: string, token: string,
                              user: string)
    requires CodesNeedTotp(before, user)
    ensures CodesNeedTotp(Logins.CompleteMFA(env, before, now, mfaToken, code, token).0, user)
  {
    var after := Logins.CompleteMFA(env, before, now, mfaToken, code, token).0;
    if Logins.Claimable(before, now, mfaToken) {
      var claimed := Logins.Claimed(before, mfaToken);
      var id := before.pending.mfaTokens[mfaToken].user;
      SameFactorsKeepCodes(before, claimed, user);
      VerifyKeepsCodes(env, claimed, now, id, code, user);
      if after.factors == claimed.factors {
        SameFactorsKeepCodes(claimed, after, user);
      } else {
        SameFactorsKeepCodes(Logins.VerifyFactor(env, claimed, now, id, code).0, after, user);
      }
    }
  }

  lemma StepUpKeepsCodes(env: Env, before: Db, now: Time, actor: Identity, secret: string, user: string)
    requires CodesNeedTotp(before, user)
    ensures CodesNeedTotp(Logins.StepUpWithSecret(env, before, now, actor, secret).0, user)
  {
    var after := Logins.StepUpWithSecret(env, before, now, actor, secret).0;
    VerifyKeepsCodes(env, before, now, actor.user, secret, user);
    if after.factors == before.factors {
      SameFactorsKeepCodes(before, after, user);
    } else {
      SameFactorsKeepCodes(Logins.VerifyFactor(env, before, now, actor.user, secret).0, after, user);
    }
  }

  /** Where nobody's codes change, nobody loses the enrollment behind them. */
  lemma EnrollingKeepsCodes(before: Db, actor: Identity, secret: string, user: string)
    requires CodesNeedTotp(before, user)
    ensures CodesNeedTotp(Factors.BeginEnrollment(before, actor, secret).0, user)
  {
    var after := Factors.BeginEnrollment(before, actor, secret).0;
    forall c | UnusedCode(after, user, c)
      ensures HasConfirmedTotp(after, user)
    {
      assert UnusedCode(before, user, c);
    }
  }

  /** Where one account's codes are replaced along with its enrollment. */
  lemma ReplacingKeepsCodes(before: Db, after: Db, id: string, user: string)
    requires CodesNeedTotp(before, user)
    requires forall u :: u != id && u in after.factors.recovery ==>
               u in before.factors.recovery && after.factors.recovery[u] == before.factors.recovery[u]
    requires forall u :: u != id && HasConfirmedTotp(before, u) ==> HasConfirmedTotp(after, u)
    requires HasConfirmedTotp(after, id) || forall c :: !UnusedCode(after, id, c)
    ensures CodesNeedTotp(after, user)
  {
    forall c | UnusedCode(after, user, c)
      ensures HasConfirmedTotp(after, user)
    {
      assert user != id ==> UnusedCode(before, user, c);
    }
  }

  lemma ConfirmingKeepsCodes(env: Env, before: Db, now: Time, actor: Identity, code: string, codes: set<string>,
                             user: string)
    requires CodesNeedTotp(before, user)
    ensures CodesNeedTotp(Factors.ConfirmEnrollment(env, before, now, actor, code, codes).0, user)
  {
    var (after, outcome) := Factors.ConfirmEnrollment(env, before, now, actor, code, codes);
    if outcome == Done {
      ReplacingKeepsCodes(before, after, actor.user, user);
    }
  }

  lemma RemovingKeepsCodes(before: Db, id: string, user: string)
    requires CodesNeedTotp(before, user)
    ensures CodesNeedTotp(Factors.WithoutTotp(before, id), user)
  {
    ReplacingKeepsCodes(before, Factors.WithoutTotp(before, id), id, user);
  }

  lemma RegeneratingKeepsCodes(before: Db, actor: Identity, codes: set<string>, user: string)
    requires CodesNeedTotp(before, user)
    ensures CodesNeedTotp(Factors.RegenerateRecoveryCodes(before, actor, codes).0, user)
  {
    var (after, outcome) := Factors.RegenerateRecoveryCodes(before, actor, codes);
    if outcome == Done {
      ReplacingKeepsCodes(before, after, actor.user, user);
    }
  }

  lemma FactorKeepsCodes(env: Env, before: Db, step: Step, user: string)
    requires step.op.Factor? && CodesNeedTotp(before, user)
    ensures CodesNeedTotp(FactorNext(env, before, step.now, step.rules, step.actor, step.op.factor).0, user)
  {
    var (after, outcome) := FactorNext(env, before, step.now, step.rules, step.actor, step.op.factor);
    match step.op.factor {
      case BeginEnrollment(secret) => EnrollingKeepsCodes(before, step.actor, secret, user);
      case ConfirmEnrollment(code, codes) =>
        ConfirmingKeepsCodes(env, before, step.now, step.actor, code, codes, user);
      case RegenerateRecoveryCodes(codes) => RegeneratingKeepsCodes(before, step.actor, codes, user);
      case DisableFactor(_) => RemovingKeepsCodes(before, step.actor.user, user);
      case ClearFactorFor(id) =>
        RemovingKeepsCodes(before, id, user);
        SameFactorsKeepCodes(Factors.WithoutTotp(before, id), WithoutKeysOf(Factors.WithoutTotp(before, id), id), user);
      case _ => SameFactorsKeepCodes(before, after, user);
    }
  }

  lemma StepKeepsCodes(env: Env, before: Db, step: Step, user: string)
    requires CodesNeedTotp(before, user)
    ensures CodesNeedTotp(Next(env, before, step).0, user)
  {
    match step.op {
      case Admin(op) =>
        Frames.AdminFrame(env, before, step.rules, step.actor, op);
        SameFactorsKeepCodes(before, Next(env, before, step).0, user);
      case Sign(op) => LoginKeepsCodes(env, before, step.now, step.actor, op, user);
      case Factor(op) => FactorKeepsCodes(env, before, step, user);
    }
  }

  /** In every run, unused recovery codes exist only while a confirmed enrollment
      does: none outlives the factor it gets past. */
  lemma {:induction false} CodesAlwaysNeedTotp(run: Run, n: nat, user: string)
    requires run.Valid() && n < |run.states| && CodesNeedTotp(run.states[0], user)
    ensures CodesNeedTotp(run.states[n], user)
  {
    if n > 0 {
      CodesAlwaysNeedTotp(run, n - 1, user);
      StepKeepsCodes(run.env, run.states[n - 1], run.steps[n - 1], user);
      assert run.Takes(n - 1);
    }
  }

  // ---- Where a step-up comes from --------------------------------------------------------

  /** The caller of step i is one that an earlier step resolved. */
  ghost predicate Authentic(run: Run, i: nat)
    requires run.Shaped() && i < |run.steps|
  {
    exists j :: 0 <= j < i && run.outcomes[j] == Resolved(run.steps[i].actor)
  }

  /** The operations whose caller the argument depends on: revoking a key, and the
      step-ups a revocation may rest on. */
  predicate UsesIdentity(op: Op) {
    || (op.Factor? && op.factor.RevokeCredential?)
    || (op.Sign? && (op.login.StepUpWithSecret? || op.login.CompleteStepUpWithPasskey?))
  }

  /** A mark of re-verification comes from a session. */
  ghost predicate FromSession(db: Db, identity: Identity) {
    identity.steppedUpAt.Some? ==>
      && identity.session in db.sessions
      && db.sessions[identity.session].user == identity.user
      && db.sessions[identity.session].steppedUpAt == identity.steppedUpAt
  }

  lemma SessionResolves(env: Env, db: Db, now: Time, t: string, identity: Identity)
    requires Logins.AuthenticateSession(env, db, now, t).1 == Resolved(identity)
    ensures identity.session == t && t in db.sessions && db.sessions[t].user == identity.user
    ensures FromSession(db, identity)
  {
  }

  /** Only authentication resolves a caller. */
  lemma OnlyAuthenticationResolves(env: Env, db: Db, step: Step)
    requires Next(env, db, step).1.Resolved?
    ensures step.op.Sign? && (step.op.login.AuthenticateSession? || step.op.login.AuthenticateAPIKey?)
  {
  }

  lemma ResolvedIsFromSession(env: Env, db: Db, step: Step, identity: Identity)
    requires Next(env, db, step).1 == Resolved(identity)
    ensures FromSession(db, identity)
    ensures identity.session != "" ==>
              identity.session in db.sessions && db.sessions[identity.session].user == identity.user
  {
    OnlyAuthenticationResolves(env, db, step);
    if step.op.login.AuthenticateSession? {
      SessionResolves(env, db, step.now, step.op.login.token, identity);
    }
  }

  /** The step that resolved the caller of step i, and the session behind it. */
  lemma CallerResolved(run: Run, i: nat) returns (j: nat)
    requires run.Valid() && i < |run.steps| && Authentic(run, i)
    ensures j < i && FromSession(run.states[j], run.steps[i].actor)
    ensures var actor := run.steps[i].actor;
            actor.session != "" ==>
              actor.session in run.states[j].sessions && run.states[j].sessions[actor.session].user == actor.user
  {
    j :| j < i && run.outcomes[j] == Resolved(run.steps[i].actor);
    assert run.Takes(j);
    ResolvedIsFromSession(run.env, run.states[j], run.steps[j], run.steps[i].actor);
  }

  /** A session belongs to one account for as long as it exists. */
  lemma {:induction false} OneAccountPerSession(run: Run, i: nat, j: nat, t: string)
    requires run.Valid() && Tidy(run.states[0]) && i <= j < |run.states|
    requires t in run.states[i].sessions && t in run.states[j].sessions
    ensures run.states[i].sessions[t].user == run.states[j].sessions[t].user
  {
    if i < j {
      RunStep(run, j - 1, t);
      RunGrows(run, 0, i);
      RunGrows(run, i, j - 1);
      OneAccountPerSession(run, i, j - 1, t);
    }
  }

  /** No session carries a mark of re-verification. */
  predicate NoMarks(db: Db) {
    forall t :: t in db.sessions ==> db.sessions[t].steppedUpAt.None?
  }

  /** The step that left a session's re-verification mark. */
  lemma {:induction false} StampOrigin(run: Run, n: nat, t: string) returns (m: nat)
    requires run.Valid() && Tidy(run.states[0]) && n < |run.states|
    requires NoMarks(run.states[0]) && t in run.states[n].sessions
    requires run.states[n].sessions[t].steppedUpAt.Some?
    ensures m < n && Stamps(run.steps[m], run.outcomes[m], t)
    ensures run.steps[m].now == run.states[n].sessions[t].steppedUpAt.value
  {
    RunStep(run, n - 1, t);
    if run.states[n].sessions[t].steppedUpAt == Some(run.steps[n - 1].now)
       && Stamps(run.steps[n - 1], run.outcomes[n - 1], t)
    {
      m := n - 1;
    } else {
      m := StampOrigin(run, n - 1, t);
    }
  }

  /** The proof a completed step-up rests on: a code where the account has an
      authenticator, the password where it has no factor at all, or one of its
      own keys. */
  predicate Proves(env: Env, before: Db, step: Step) {
    match step.op
    case Sign(StepUpWithSecret(secret)) =>
      if HasConfirmedTotp(before, step.actor.user)
      then Logins.VerifyFactor(env, before, step.now, step.actor.user, secret).1.None?
      else !HasKeys(before, step.actor.user)
           && Logins.PasswordCheck(env, before, step.actor.user, secret).None?
    case Sign(CompleteStepUpWithPasskey(_, assertion)) =>
      && PendingSteps.Spends(before, step)
      && Logins.AssertedBy(before, step.actor.user, assertion)
    case _ => false
  }

  lemma StampProves(env: Env, before: Db, step: Step, t: string)
    requires Stamps(step, Next(env, before, step).1, t)
    ensures Proves(env, before, step)
  {
  }

  /** The method a client is told to ask for is the one a step-up accepts. */
  lemma MethodIsWhatStepUpAsksFor(env: Env, db: Db, now: Time, actor: Identity, secret: string)
    requires Logins.HasSession(actor)
    ensures var (after, outcome) := Logins.StepUpWithSecret(env, db, now, actor, secret);
            match Logins.StepUpMethodFor(db, actor.user)
            case ByFactor => outcome == Done <==> Logins.VerifyFactor(env, db, now, actor.user, secret).1.None?
            case ByPasskey => outcome == Refused(StepUpNeedsPasskey)
            case ByPassword => outcome == Done <==> Logins.PasswordCheck(env, db, actor.user, secret).None?
  {
  }

  /** Step m re-verified the account in the session that step i revokes from, less
      than ten minutes before. */
  ghost predicate RecentProof(run: Run, m: nat, i: nat, user: string)
    requires run.Shaped() && i < |run.steps|
  {
    && m < i && run.steps[i].now - run.steps[m].now < 10 * 60_000_000_000
    && run.steps[m].actor.user == user && run.steps[m].actor.session == run.steps[i].actor.session
    && run.outcomes[m] == Done && Proves(run.env, run.states[m], run.steps[m])
  }

  /** A step-up needs a session. */
  lemma StampNeedsSession(env: Env, db: Db, step: Step, t: string)
    requires Stamps(step, Next(env, db, step).1, t)
    ensures step.actor.session == t != "" && Proves(env, db, step)
  {
    StampProves(env, db, step, t);
  }

  lemma SteppedUpRecently(run: Run, i: nat, user: string) returns (m: nat)
    requires run.Valid() && Tidy(run.states[0]) && NoMarks(run.states[0]) && i < |run.steps|
    requires forall k :: 0 <= k < |run.steps| && UsesIdentity(run.steps[k].op) ==> Authentic(run, k)
    requires RevokesSteppedUp(run.steps[i], user)
    ensures RecentProof(run, m, i, user)
  {
    var t := run.steps[i].actor.session;
    var j := CallerResolved(run, i);
    m := StampOrigin(run, j, t);
    assert run.Takes(m);
    StampNeedsSession(run.env, run.states[m], run.steps[m], t);
    var l := CallerResolved(run, m);
    OneAccountPerSession(run, l, j, t);
  }

  lemma RunStepLoses(run: Run, i: nat, user: string)
    requires run.Valid() && Tidy(run.states[0]) && i < |run.steps| && Truthful(run.states[i], run.steps[i])
    requires LosesFactor(run.states[i], run.states[i + 1], user)
    ensures || RevokesSteppedUp(run.steps[i], user)
            || DisablesWithPassword(run.env, run.states[i], run.steps[i], user)
            || Cleared(run.states[i], run.steps[i], user)
  {
    RunGrows(run, 0, i);
    assert run.Takes(i);
    StepLoses(run.env, run.states[i], run.steps[i], user);
  }

  /** Factor preservation: an account is left with no second factor only by its
      owner switching TOTP off with the password, by somebody else's permitted
      clearing, by its own under a role that may act on itself, or by revoking the
      last key in a session that, within ten minutes, proved what the account's
      factors then demanded. */
  lemma LastFactorGoesOnlyDeliberately(run: Run, i: nat, user: string)
    requires run.Valid() && Tidy(run.states[0]) && NoMarks(run.states[0])
    requires forall k :: 0 <= k < |run.steps| && UsesIdentity(run.steps[k].op) ==> Authentic(run, k)
    requires i < |run.steps| && Truthful(run.states[i], run.steps[i])
    requires LosesFactor(run.states[i], run.states[i + 1], user)
    ensures || DisablesWithPassword(run.env, run.states[i], run.steps[i], user)
            || ClearedByManager(run.states[i], run.steps[i], user)
            || ClearsOwn(run.states[i], run.steps[i], user)
            || (RevokesSteppedUp(run.steps[i], user) && exists m :: RecentProof(run, m, i, user))
  {
    RunStepLoses(run, i, user);
    if RevokesSteppedUp(run.steps[i], user) {
      var m := SteppedUpRecently(run, i, user);
    }
  }
}
