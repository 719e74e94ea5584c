/** Signing in and step-up as they are carried out (authenticator.go, stepup.go). */
module SigningIn {
  import opened Prelude
  import opened State
  import opened Stores
  import opened Text
  import opened SecurityKeys
  import opened SecondFactors
  import Logins = LoginRules

  class Authenticator {
    const store: Store
    const env: Env
    const factor: MFAService
    const passkeys: WebAuthnService

    constructor (store: Store, env: Env, factor: MFAService, passkeys: WebAuthnService)
      ensures this.store == store && this.env == env && this.factor == factor && this.passkeys == passkeys
    {
      this.store := store;
      this.env := env;
      this.factor := factor;
      this.passkeys := passkeys;
    }

    /** All services work on the same tables in the same environment. */
    ghost predicate Wired() {
      factor.store == store && factor.env == env && factor.Wired() && passkeys.store == store
    }

    /** The windows for one account, with the fallbacks of WithSessionLifetimes. */
    method Lifetimes(p: Profile) returns (idle: Time, absolute: Time)
      ensures (idle, absolute) == Logins.SessionLifetimes(env, p)
      ensures 0 < idle <= absolute
    {
      idle, absolute := Logins.IDLE_TIMEOUT, Logins.ABSOLUTE_TIMEOUT;
      match env.lifetimes {
        case None => return;
        case Some(rule) =>
          var (i, abs) := rule(p);
          if i > 0 {
            idle := i;
          }
          if abs > 0 {
            absolute := abs;
          }
          if absolute < idle {
            absolute := idle;
          }
      }
    }

    method IssueSession(now: Time, user: string, token: string) returns (r: Outcome)
      requires user in store.db.accounts.users
      modifies store
      ensures (store.db, r) == Logins.IssueSession(env, old(store.db), now, user, token)
    {
      var idle, absolute := Lifetimes(ProfileOf(store.db, user));
      var ok := store.InsertSession(token, Session(user, now + idle, now + absolute, false, None));
      if !ok {
        return Refused(Conflict);
      }
      return SessionIssued(token);
    }

    /** Re-reads the account before it issues the session. */
    method IssueIfEnabled(now: Time, user: string, token: string) returns (r: Outcome)
      modifies store
      ensures (store.db, r) == Logins.IssueIfEnabled(env, old(store.db), now, user, token)
    {
      if user !in store.db.accounts.users || store.db.accounts.users[user].disabled {
        return Refused(InvalidCredentials);
      }
      r := IssueSession(now, user, token);
    }

    method Login(now: Time, email: string, password: string, salt: Salt, token: string) returns (r: Outcome)
      requires Wired()
      modifies store
      ensures (store.db, r) == Logins.Login(env, old(store.db), now, email, password, salt, token)
    {
      var address := Lower(Trim(email));
      if address !in store.db.accounts.emails || store.db.accounts.emails[address] !in store.db.accounts.users {
        return Refused(InvalidCredentials);
      }
      r := LoginAs(now, store.db.accounts.emails[address], password, salt, token);
    }

    method LoginAs(now: Time, user: string, password: string, salt: Salt, token: string) returns (r: Outcome)
      requires Wired() && user in store.db.accounts.users
      modifies store
      ensures (store.db, r) == Logins.LoginAs(env, old(store.db), now, user, password, salt, token)
    {
      var u := store.db.accounts.users[user];
      if u.hash == "" {
        return Refused(InvalidCredentials);
      }
      match env.verify(u.hash, password) {
        case None => return Refused(CorruptHash);
        case Some(ok) =>
          if !ok || u.disabled {
            return Refused(InvalidCredentials);
          }
      }
      if env.needsRehash(u.hash) {
        store.SetPasswordHash(user, env.hash(password, salt));
      }
      var required := factor.RequiresFactor(user);
      if required {
        r := factor.IssueMFAToken(now, user, token);
      } else {
        r := IssueSession(now, user, token);
      }
    }

    /** The token is spent first, then the account is re-read, and only then is the
        code looked at. */
    method CompleteMFA(now: Time, mfaToken: string, code: string, token: string) returns (r: Outcome)
      requires Wired()
      modifies store
      ensures (store.db, r) == Logins.CompleteMFA(env, old(store.db), now, mfaToken, code, token)
    {
      var claimed := factor.ClaimMFAToken(now, mfaToken);
      if claimed.None? {
        return Refused(InvalidMfaToken);
      }
      var user := claimed.value;
      if user !in store.db.accounts.users || store.db.accounts.users[user].disabled {
        return Refused(InvalidCredentials);
      }
      var e := factor.VerifyFactor(now, user, code);
      if e.Some? {
        return Refused(e.value);
      }
      r := IssueSession(now, user, token);
    }

    method BeginPasskeyLogin(now: Time, mfaToken: string, id: string) returns (r: Outcome)
      requires Wired()
      modifies store
      ensures (store.db, r) == Logins.BeginPasskeyLogin(old(store.db), now, mfaToken, id)
    {
      var claimed := factor.ClaimMFAToken(now, mfaToken);
      if claimed.None? {
        return Refused(InvalidMfaToken);
      }
      r := passkeys.BeginLogin(now, claimed.value, id);
    }

    method CompletePasskeyLogin(now: Time, challenge: string, assertion: Option<string>, token: string)
      returns (r: Outcome)
      requires Wired()
      modifies store
      ensures (store.db, r) == Logins.CompletePasskeyLogin(env, old(store.db), now, challenge, assertion, token)
    {
      var finished := passkeys.FinishLogin(now, challenge, assertion);
      match finished {
        case Err(e) => return Refused(e);
        case Ok(user) => r := IssueIfEnabled(now, user, token);
      }
    }

    method BeginPasswordlessLogin(now: Time, id: string) returns (r: Outcome)
      requires Wired()
      modifies store
      ensures (store.db, r) == Logins.BeginPasswordlessLogin(old(store.db), now, id)
    {
      r := passkeys.BeginPasswordlessLogin(now, id);
    }

    method CompletePasswordlessLogin(now: Time, challenge: string, handle: string, assertion: Option<string>,
                                     token: string) returns (r: Outcome)
      requires Wired()
      modifies store
      ensures (store.db, r)
           == Logins.CompletePasswordlessLogin(env, old(store.db), now, challenge, handle, assertion, token)
    {
      var finished := passkeys.FinishPasswordlessLogin(now, challenge, handle, assertion);
      match finished {
        case Err(e) => return Refused(e);
        case Ok(user) => r := IssueIfEnabled(now, user, token);
      }
    }

    method AuthenticateSession(now: Time, token: string) returns (r: Outcome)
      modifies store
      ensures (store.db, r) == Logins.AuthenticateSession(env, old(store.db), now, token)
    {
      if token == "" {
        return Refused(NoCredentials);
      }
      if !Live(store.db, now, token) {
        return Refused(InvalidCredentials);
      }
      var identity := SessionIdentity(store.db, token);
      var idle, absolute := Lifetimes(ProfileOf(store.db, identity.user));
      store.TouchSession(token, now + idle);
      return Resolved(identity);
    }

    method AuthenticateAPIKey(key: string) returns (r: Outcome)
      ensures (store.db, r) == Logins.AuthenticateAPIKey(store.db, key)
    {
      if key == "" {
        return Refused(NoCredentials);
      }
      if !LiveKey(store.db, key) {
        return Refused(InvalidCredentials);
      }
      return Resolved(KeyIdentity(store.db, key));
    }

    method Logout(now: Time, token: string) returns (r: Outcome)
      modifies store
      ensures (store.db, r) == Logins.Logout(old(store.db), now, token)
    {
      if Live(store.db, now, token) {
        store.RevokeSession(token);
      }
      return Done;
    }

    method VerifyPasswordFor(user: string, password: string) returns (e: Option<Error>)
      ensures e == Logins.PasswordCheck(env, store.db, user, password)
    {
      if user !in store.db.accounts.users {
        return Some(NotFound);
      }
      var u := store.db.accounts.users[user];
      if u.hash == "" || u.disabled {
        return Some(InvalidCredentials);
      }
      match env.verify(u.hash, password) {
        case None => return Some(CorruptHash);
        case Some(ok) => return if ok then None else Some(InvalidCredentials);
      }
    }

    method StepUp(now: Time, actor: Identity, secret: string) returns (r: Outcome)
      requires Wired()
      modifies store
      ensures (store.db, r) == Logins.StepUpWithSecret(env, old(store.db), now, actor, secret)
    {
      if actor.user == "" || actor.session == "" {
        return Refused(StepUpRequired);
      }
      var e: Option<Error>;
      if HasConfirmedTotp(store.db, actor.user) {
        e := factor.VerifyFactor(now, actor.user, secret);
      } else {
        var required := factor.RequiresFactor(actor.user);
        if required {
          return Refused(StepUpNeedsPasskey);
        }
        e := VerifyPasswordFor(actor.user, secret);
      }
      if e.Some? {
        return Refused(e.value);
      }
      store.StampStepUp(actor.session, now);
      return Done;
    }

    method BeginStepUpWithPasskey(now: Time, actor: Identity, id: string) returns (r: Outcome)
      requires Wired()
      modifies store
      ensures (store.db, r) == Logins.BeginStepUpWithPasskey(old(store.db), now, actor, id)
    {
      if actor.user == "" || actor.session == "" {
        return Refused(StepUpRequired);
      }
      r := passkeys.BeginStepUp(now, actor.user, id);
    }

    method CompleteStepUpWithPasskey(now: Time, actor: Identity, challenge: string, assertion: Option<string>)
      returns (r: Outcome)
      requires Wired()
      modifies store
      ensures (store.db, r) == Logins.CompleteStepUpWithPasskey(old(store.db), now, actor, challenge, assertion)
    {
      if actor.user == "" || actor.session == "" {
        return Refused(StepUpRequired);
      }
      var e := passkeys.FinishStepUp(now, actor.user, challenge, assertion);
      if e.Some? {
        return Refused(e.value);
      }
      store.StampStepUp(actor.session, now);
      return Done;
    }
  }
}
