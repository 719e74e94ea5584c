/** The second-factor use cases as they are carried out (mfa.go). */
module SecondFactors {
  import opened Prelude
  import opened Roles
  import opened State
  import opened Stores
  import opened SecurityKeys
  import Logins = LoginRules
  import Factors = FactorRules
  import RecoveryCode
  import Totp

  class MFAService {
    const store: Store
    const table: PermissionTable
    const env: Env
    const passkeys: WebAuthnService

    constructor (store: Store, table: PermissionTable, env: Env, passkeys: WebAuthnService)
      ensures this.store == store && this.table == table && this.env == env && this.passkeys == passkeys
    {
      this.store := store;
      this.table := table;
      this.env := env;
      this.passkeys := passkeys;
    }

    /** The service for security keys works on the same tables. */
    ghost predicate Wired() {
      passkeys.store == store
    }

    method RequiresFactor(user: string) returns (required: bool)
      requires Wired()
      ensures required <==> RequiresSecondFactor(store.db, user)
    {
      required := passkeys.HasCredentials(user);
      if !required {
        required := HasConfirmedTotp(store.db, user);
      }
    }

    method IssueMFAToken(now: Time, user: string, token: string) returns (r: Outcome)
      modifies store
      ensures (store.db, r) == Logins.IssueMfaToken(old(store.db), now, user, token)
    {
      var ok := store.InsertMFAToken(token, MfaToken(user, now + Logins.MFA_TOKEN_LIFETIME, false));
      if !ok {
        return Refused(Conflict);
      }
      return MfaIssued(token);
    }

    method ClaimMFAToken(now: Time, token: string) returns (user: Option<string>)
      modifies store
      ensures user.Some? <==> Logins.Claimable(old(store.db), now, token)
      ensures if user.Some?
              then user.value == old(store.db).pending.mfaTokens[token].user
                   && store.db == Logins.Claimed(old(store.db), token)
              else store.db == old(store.db)
    {
      if token == "" {
        return None;
      }
      user := store.ClaimMFAToken(token, now);
    }

    method VerifyTOTP(now: Time, user: string, code: string) returns (e: Option<Error>)
      requires user in store.db.factors.enrollments
      modifies store
      ensures (store.db, e) == Logins.VerifyTotp(env, old(store.db), now, user, code)
    {
      var enrollment := store.db.factors.enrollments[user];
      var v := Totp.ValidateTOTPCode(env.hotp, enrollment.secret, code, now, enrollment.lastUsedStep, Totp.SKEW);
      if !v.Accepted? {
        return Some(InvalidTotpCode);
      }
      store.SetTOTPLastUsedStep(user, v.step);
      return None;
    }

    method VerifyRecoveryCode(user: string, code: string) returns (e: Option<Error>)
      modifies store
      ensures (store.db, e) == Logins.VerifyRecovery(old(store.db), user, RecoveryCode.Normalize(code))
    {
      var normalized := RecoveryCode.NormalizeRecoveryCode(code);
      if normalized == "" {
        return Some(InvalidRecoveryCode);
      }
      var spent := store.SpendRecoveryCode(user, normalized);
      return if spent then None else Some(InvalidRecoveryCode);
    }

    /** The shape of the code decides which credential is looked at. */
    method VerifyFactor(now: Time, user: string, code: string) returns (e: Option<Error>)
      modifies store
      ensures (store.db, e) == Logins.VerifyFactor(env, old(store.db), now, user, code)
    {
      if user !in store.db.factors.enrollments || !store.db.factors.enrollments[user].confirmed {
        return Some(MfaNotEnrolled);
      }
      var totp := RecoveryCode.RouteToTotp(code);
      if totp {
        e := VerifyTOTP(now, user, code);
      } else {
        e := VerifyRecoveryCode(user, code);
      }
    }

    method BeginEnrollment(actor: Identity, secret: string) returns (r: Outcome)
      modifies store
      ensures (store.db, r) == Factors.BeginEnrollment(old(store.db), actor, secret)
    {
      if actor.user == "" {
        return Refused(NotPermitted);
      }
      if actor.user in store.db.factors.enrollments && store.db.factors.enrollments[actor.user].confirmed {
        return Refused(MfaAlreadyConfirmed);
      }
      store.PutTOTP(actor.user, Enrollment(secret, false, 0));
      return Done;
    }

    method ConfirmEnrollment(now: Time, actor: Identity, code: string, codes: set<string>) returns (r: Outcome)
      modifies store
      ensures (store.db, r) == Factors.ConfirmEnrollment(env, old(store.db), now, actor, code, codes)
    {
      if actor.user == "" {
        return Refused(NotPermitted);
      }
      if actor.user !in store.db.factors.enrollments {
        return Refused(MfaNotEnrolled);
      }
      var e := store.db.factors.enrollments[actor.user];
      if e.confirmed {
        return Refused(MfaAlreadyConfirmed);
      }
      var v := Totp.ValidateTOTPCode(env.hotp, e.secret, code, now, e.lastUsedStep, Totp.SKEW);
      if !v.Accepted? {
        return Refused(InvalidTotpCode);
      }
      // The confirming step counts as used.
      store.PutTOTP(actor.user, Enrollment(e.secret, true, v.step));
      store.ReplaceRecoveryCodes(actor.user, codes);
      return Done;
    }

    method RegenerateRecoveryCodes(actor: Identity, codes: set<string>) returns (r: Outcome)
      modifies store
      ensures (store.db, r) == Factors.RegenerateRecoveryCodes(old(store.db), actor, codes)
    {
      if actor.user == "" {
        return Refused(NotPermitted);
      }
      if !HasConfirmedTotp(store.db, actor.user) {
        return Refused(MfaNotEnrolled);
      }
      store.ReplaceRecoveryCodes(actor.user, codes);
      return Done;
    }

    method Disable(actor: Identity, password: string) returns (r: Outcome)
      modifies store
      ensures (store.db, r) == Factors.Disable(env, old(store.db), actor, password)
    {
      if actor.user == "" {
        return Refused(NotPermitted);
      }
      if actor.user !in store.db.factors.enrollments {
        return Refused(MfaNotEnrolled);
      }
      if actor.user !in store.db.accounts.users {
        return Refused(NotFound);
      }
      var u := store.db.accounts.users[actor.user];
      if u.hash == "" {
        return Refused(InvalidCredentials);
      }
      match env.verify(u.hash, password) {
        case None => return Refused(CorruptHash);
        case Some(ok) =>
          if !ok {
            return Refused(InvalidCredentials);
          }
          store.DeleteTOTP(actor.user);
          store.ReplaceRecoveryCodes(actor.user, {});
          return Done;
      }
    }

    method ClearFactorFor(actor: Identity, id: string, target: User) returns (r: Outcome)
      requires Wired()
      modifies store
      ensures (store.db, r) == Factors.ClearFactorFor(table.Current(), old(store.db), actor, id, target)
    {
      if !table.Current().Can(actor.role, table.manageUsers) {
        return Refused(NotPermitted);
      }
      if target.org != actor.org {
        return Refused(NotPermitted);
      }
      if !table.Current().MayHandle(actor.role, target.role) {
        return Refused(PrivilegedTarget);
      }
      store.DeleteTOTP(id);
      store.ReplaceRecoveryCodes(id, {});
      passkeys.RevokeAllFor(id);
      return Done;
    }
  }
}
