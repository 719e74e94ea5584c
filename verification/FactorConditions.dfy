/** Exactly when each operation on second factors succeeds, and what it leaves
    behind, in terms of the tables alone (mfa.go:181-393; webauthn.go:267-341,
    439-488). */
module FactorConditions {
  import opened Prelude
  import opened Roles
  import opened State
  import opened System
  import opened SignInConditions
  import AccountConditions
  import Totp

  /** Only this account's enrollment and codes may differ. */
  predicate OthersKeepTotp(before: Db, after: Db, id: string) {
    && after.factors.enrollments - {id} == before.factors.enrollments - {id}
    && after.factors.recovery - {id} == before.factors.recovery - {id}
    && after == before.(factors := after.factors)
  }

  /** The account's recovery codes are these, none spent. */
  predicate CodesAre(db: Db, id: string, codes: set<string>) {
    && id in db.factors.recovery && db.factors.recovery[id].Keys == codes
    && forall c :: c in codes ==> !db.factors.recovery[id][c]
  }

  /** An enrollment begins unless a confirmed one stands: unconfirmed, with the new
      secret, no step used. */
  lemma EnrollmentBegunIff(env: Env, db: Db, now: Time, rules: Rules, actor: Identity, secret: string)
    ensures var (after, outcome) := FactorNext(env, db, now, rules, actor, BeginEnrollment(secret));
            && (outcome == Done <==> actor.user != "" && !HoldsTotp(db, actor.user))
            && (outcome == Done ==>
                  && after.factors
                     == db.factors.(enrollments := db.factors.enrollments[actor.user := Enrollment(secret, false, 0)])
                  && OthersKeepTotp(db, after, actor.user))
            && (outcome != Done ==> after == db)
  {
  }

  /** The code is accepted for the enrollment under way, for this step. */
  predicate ConfirmsAt(env: Env, db: Db, now: Time, id: string, code: string, step: int) {
    && id in db.factors.enrollments && !db.factors.enrollments[id].confirmed
    && var e := db.factors.enrollments[id];
       Totp.Validate(env.hotp, e.secret, code, now, e.lastUsedStep, 1) == Totp.Accepted(step)
  }

  /** It is confirmed exactly by a code of its own secret; that code's step counts as
      used, and the recovery codes drawn are the account's only ones. */
  lemma EnrollmentConfirmedIff(env: Env, db: Db, now: Time, rules: Rules, actor: Identity, code: string,
                               codes: set<string>)
    ensures var (after, outcome) := FactorNext(env, db, now, rules, actor, ConfirmEnrollment(code, codes));
            && (outcome == Done <==>
                  actor.user != "" && exists step :: ConfirmsAt(env, db, now, actor.user, code, step))
            && (outcome == Done ==>
                  && HoldsTotp(after, actor.user) && CodesAre(after, actor.user, codes)
                  && OthersKeepTotp(db, after, actor.user)
                  && forall step :: ConfirmsAt(env, db, now, actor.user, code, step) ==>
                       after.factors.enrollments[actor.user]
                         == Enrollment(db.factors.enrollments[actor.user].secret, true, step))
            && (outcome != Done ==> after == db)
  {
    if actor.user in db.factors.enrollments && !db.factors.enrollments[actor.user].confirmed {
      var e := db.factors.enrollments[actor.user];
      var v := Totp.Validate(env.hotp, e.secret, code, now, e.lastUsedStep, 1);
      assert v.Accepted? ==> ConfirmsAt(env, db, now, actor.user, code, v.step);
    }
  }

  lemma CodesReissuedIff(env: Env, db: Db, now: Time, rules: Rules, actor: Identity, codes: set<string>)
    ensures var (after, outcome) := FactorNext(env, db, now, rules, actor, RegenerateRecoveryCodes(codes));
            && (outcome == Done <==> actor.user != "" && HoldsTotp(db, actor.user))
            && (outcome == Done ==>
                  && CodesAre(after, actor.user, codes) && OthersKeepTotp(db, after, actor.user)
                  && after.factors.enrollments == db.factors.enrollments)
            && (outcome != Done ==> after == db)
  {
  }

  /** The authenticator is switched off exactly by its owner with the password,
      confirmed or not; its codes go with it and the keys stay. */
  lemma TotpDisabledIff(env: Env, db: Db, now: Time, rules: Rules, actor: Identity, password: string)
    ensures var (after, outcome) := FactorNext(env, db, now, rules, actor, DisableFactor(password));
            && (outcome == Done <==>
                  && actor.user != "" && actor.user in db.factors.enrollments
                  && PasswordIs(env, db, actor.user, password))
            && (outcome == Done ==>
                  && actor.user !in after.factors.enrollments && CodesAre(after, actor.user, {})
                  && OthersKeepTotp(db, after, actor.user) && after.factors.credentials == db.factors.credentials)
            && (outcome != Done ==> after == db)
  {
  }

  /** An account's factors are cleared exactly by a caller who manages users, in its
      organization, with a role that may touch the account's; then it has none, and
      every other account keeps its own. */
  lemma FactorsClearedIff(env: Env, db: Db, now: Time, rules: Rules, actor: Identity, id: string)
    ensures var (after, outcome) := FactorNext(env, db, now, rules, actor, ClearFactorFor(id));
            && (outcome == Done <==>
                  && id in db.accounts.users && db.accounts.users[id].org == actor.org
                  && AccountConditions.Carries(rules, actor.role, rules.manageUsers)
                  && AccountConditions.MayTouch(rules, actor.role, db.accounts.users[id].role))
            && (outcome == Done ==>
                  && id !in after.factors.enrollments && CodesAre(after, id, {})
                  && OthersKeepTotp(db, after, id)
                  && after.factors.credentials
                     == map row | row in db.factors.credentials && db.factors.credentials[row].user != id
                                :: db.factors.credentials[row])
            && (outcome != Done ==> after == db)
  {
  }

  lemma RegistrationBegunIff(env: Env, db: Db, now: Time, rules: Rules, actor: Identity, c: string)
    ensures var (after, outcome) := FactorNext(env, db, now, rules, actor, BeginRegistration(c));
            && (outcome == CeremonyBegun(c) <==>
                  actor.user != "" && actor.user in db.accounts.users && c !in db.minted)
            && (outcome == CeremonyBegun(c) ==> NewChallengeIn(db, after, now, c, actor.user, Registration))
  {
  }

  /** A key is registered exactly on a good challenge of the caller's own and a
      response that was accepted: to the caller, beside the keys already there. */
  lemma KeyRegisteredIff(env: Env, db: Db, now: Time, rules: Rules, actor: Identity, c: string,
                         created: Option<string>, row: string)
    ensures var (after, outcome) := FactorNext(env, db, now, rules, actor, FinishRegistration(c, created, row));
            && (outcome == Created(row) <==>
                  && actor.user != "" && actor.user in db.accounts.users
                  && ChallengeGood(db, now, c, Registration) && db.pending.challenges[c].user == actor.user
                  && created.Some? && row !in db.minted)
            && (outcome == Created(row) ==>
                  after.factors
                    == db.factors.(credentials := db.factors.credentials[row := Credential(actor.user, created.value)]))
            && (outcome != Created(row) ==> after.factors == db.factors)
  {
  }

  /** A second key of the account. */
  predicate HoldsAnother(db: Db, id: string, row: string) {
    exists other :: other in db.factors.credentials && other != row && db.factors.credentials[other].user == id
  }

  lemma OneKeyOnly(db: Db, id: string, row: string)
    requires row in db.factors.credentials && db.factors.credentials[row].user == id
    ensures |KeysOf(db, id)| <= 1 <==> !HoldsAnother(db, id, row)
  {
    var keys := KeysOf(db, id);
    if HoldsAnother(db, id, row) {
      var other :| other in db.factors.credentials && other != row && db.factors.credentials[other].user == id;
      assert {row, other} <= keys;
      assert |{row, other}| == 2;
      SubsetIsSmaller({row, other}, keys);
    } else {
      assert keys == {row};
    }
  }

  lemma {:induction false} SubsetIsSmaller(a: set<string>, b: set<string>)
    requires a <= b
    ensures |a| <= |b|
  {
    if a != {} {
      var x :| x in a;
      SubsetIsSmaller(a - {x}, b - {x});
    }
  }

  /** A key is revoked exactly by its owner, who holds another factor or whose
      session was re-verified less than ten minutes ago; only that key goes. */
  lemma KeyRevokedIff(env: Env, db: Db, now: Time, rules: Rules, actor: Identity, row: string, otherFactor: bool)
    ensures var (after, outcome) := FactorNext(env, db, now, rules, actor, RevokeCredential(row, otherFactor));
            var held := row in db.factors.credentials && db.factors.credentials[row].user == actor.user;
            && (outcome == Done <==>
                  && actor.user != "" && held
                  && (|| HoldsAnother(db, actor.user, row) || otherFactor
                      || (actor.steppedUpAt.Some? && now - actor.steppedUpAt.value < 600_000_000_000)))
            && (outcome == Done ==>
                  after == db.(factors := db.factors.(credentials := db.factors.credentials - {row})))
            && (outcome == Refused(NotFound) <==> actor.user != "" && !held)
            && (outcome != Done ==> after == db)
  {
    if row in db.factors.credentials && db.factors.credentials[row].user == actor.user {
      OneKeyOnly(db, actor.user, row);
    }
  }
}
