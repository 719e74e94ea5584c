/** The security-key use cases as they are carried out (webauthn.go), with the
    check of an authenticator's response given as its verdict. */
module SecurityKeys {
  import opened Prelude
  import opened State
  import opened Stores
  import Logins = LoginRules
  import Factors = FactorRules

  class WebAuthnService {
    const store: Store

    constructor (store: Store)
      ensures this.store == store
    {
      this.store := store;
    }

    method StoreCeremony(now: Time, id: string, user: string, purpose: Purpose) returns (r: Outcome)
      modifies store
      ensures (store.db, r) == Logins.StoreCeremony(old(store.db), now, id, user, purpose)
    {
      var ok := store.InsertChallenge(id, Challenge(user, purpose, now + Logins.CHALLENGE_LIFETIME, false));
      if !ok {
        return Refused(Conflict);
      }
      return CeremonyBegun(id);
    }

    method HasCredentials(user: string) returns (has: bool)
      ensures has <==> HasKeys(store.db, user)
    {
      var rows := store.ListCredentials(user);
      assert |rows| > 0 ==> rows[0] in store.db.factors.credentials;
      return |rows| > 0;
    }

    /** Finds the stored key an accepted response belongs to. */
    method FindAsserted(user: string, assertion: Option<string>) returns (found: bool)
      ensures found <==> Logins.AssertedBy(store.db, user, assertion)
    {
      if assertion.None? {
        return false;
      }
      var rows := store.ListCredentials(user);
      for i := 0 to |rows|
        invariant forall j :: 0 <= j < i ==> store.db.factors.credentials[rows[j]].credentialId != assertion.value
      {
        var c := store.db.factors.credentials[rows[i]];
        if c.credentialId == assertion.value {
          return true;
        }
      }
      forall row | row in store.db.factors.credentials
        ensures store.db.factors.credentials[row] != Credential(user, assertion.value)
      {
        assert store.db.factors.credentials[row].user == user ==> row in rows;
      }
      return false;
    }

    method CheckAssertion(user: string, assertion: Option<string>) returns (e: Option<Error>)
      ensures e == Logins.CheckAssertion(store.db, user, assertion)
    {
      if user !in store.db.accounts.users {
        return Some(NotFound);
      }
      var found := FindAsserted(user, assertion);
      return if found then None else Some(Rejected);
    }

    method BeginAssertion(now: Time, user: string, purpose: Purpose, id: string) returns (r: Outcome)
      modifies store
      ensures (store.db, r) == Logins.BeginAssertion(old(store.db), now, user, purpose, id)
    {
      if user !in store.db.accounts.users {
        return Refused(NotFound);
      }
      var has := HasCredentials(user);
      if !has {
        return Refused(NotRegistered);
      }
      r := StoreCeremony(now, id, user, purpose);
    }

    method BeginLogin(now: Time, user: string, id: string) returns (r: Outcome)
      modifies store
      ensures (store.db, r) == Logins.BeginAssertion(old(store.db), now, user, SignIn, id)
    {
      r := BeginAssertion(now, user, SignIn, id);
    }

    /** The account comes from the challenge. */
    method FinishLogin(now: Time, challenge: string, assertion: Option<string>) returns (r: Result<string, Error>)
      modifies store
      ensures if !Logins.Open(old(store.db), now, challenge, SignIn)
              then store.db == old(store.db) && r == Err(CeremonyExpired)
              else && store.db == Logins.Spent(old(store.db), challenge)
                   && var user := old(store.db).pending.challenges[challenge].user;
                      match Logins.CheckAssertion(store.db, user, assertion)
                      case Some(e) => r == Err(e)
                      case None => r == Ok(user)
    {
      var owner := store.ClaimChallenge(challenge, SignIn, None, now);
      match owner {
        case None => return Err(CeremonyExpired);
        case Some(user) =>
          var e := CheckAssertion(user, assertion);
          match e {
            case Some(error) => return Err(error);
            case None => return Ok(user);
          }
      }
    }

    method BeginPasswordlessLogin(now: Time, id: string) returns (r: Outcome)
      modifies store
      ensures (store.db, r) == Logins.BeginPasswordlessLogin(old(store.db), now, id)
    {
      r := StoreCeremony(now, id, "", Passwordless);
    }

    /** The account is the one the authenticator's user handle names. */
    method FinishPasswordlessLogin(now: Time, challenge: string, handle: string, assertion: Option<string>)
      returns (r: Result<string, Error>)
      modifies store
      ensures if !Logins.Open(old(store.db), now, challenge, Passwordless)
              then store.db == old(store.db) && r == Err(CeremonyExpired)
              else && store.db == Logins.Spent(old(store.db), challenge)
                   && r == if Logins.CheckAssertion(store.db, handle, assertion).Some?
                           then Err(Rejected) else Ok(handle)
    {
      var owner := store.ClaimChallenge(challenge, Passwordless, None, now);
      if owner.None? {
        return Err(CeremonyExpired);
      }
      var e := CheckAssertion(handle, assertion);
      return if e.Some? then Err(Rejected) else Ok(handle);
    }

    method BeginStepUp(now: Time, user: string, id: string) returns (r: Outcome)
      modifies store
      ensures (store.db, r) == Logins.BeginAssertion(old(store.db), now, user, StepUp, id)
    {
      r := BeginAssertion(now, user, StepUp, id);
    }

    method FinishStepUp(now: Time, user: string, challenge: string, assertion: Option<string>)
      returns (e: Option<Error>)
      modifies store
      ensures if !Logins.Open(old(store.db), now, challenge, StepUp)
                 || old(store.db).pending.challenges[challenge].user != user
              then store.db == old(store.db) && e == Some(CeremonyExpired)
              else store.db == Logins.Spent(old(store.db), challenge)
                   && e == Logins.CheckAssertion(store.db, user, assertion)
    {
      var owner := store.ClaimChallenge(challenge, StepUp, Some(user), now);
      if owner.None? {
        return Some(CeremonyExpired);
      }
      e := CheckAssertion(user, assertion);
    }

    method BeginRegistration(now: Time, actor: Identity, id: string) returns (r: Outcome)
      modifies store
      ensures (store.db, r) == Factors.BeginRegistration(old(store.db), now, actor, id)
    {
      if actor.user == "" {
        return Refused(NotPermitted);
      }
      if actor.user !in store.db.accounts.users {
        return Refused(NotFound);
      }
      r := StoreCeremony(now, id, actor.user, Registration);
    }

    method FinishRegistration(now: Time, actor: Identity, challenge: string, created: Option<string>, row: string)
      returns (r: Outcome)
      modifies store
      ensures (store.db, r) == Factors.FinishRegistration(old(store.db), now, actor, challenge, created, row)
    {
      if actor.user == "" {
        return Refused(NotPermitted);
      }
      var owner := store.ClaimChallenge(challenge, Registration, Some(actor.user), now);
      if owner.None? {
        return Refused(CeremonyExpired);
      }
      if actor.user !in store.db.accounts.users {
        return Refused(NotFound);
      }
      if created.None? {
        return Refused(Rejected);
      }
      var ok := store.InsertCredential(row, Credential(actor.user, created.value));
      if !ok {
        return Refused(Conflict);
      }
      return Created(row);
    }

    method RevokeCredential(now: Time, actor: Identity, row: string, otherFactor: bool) returns (r: Outcome)
      modifies store
      ensures (store.db, r) == Factors.RevokeCredential(old(store.db), now, actor, row, otherFactor)
    {
      if actor.user == "" {
        return Refused(NotPermitted);
      }
      var existing := store.ListCredentials(actor.user);
      var held := false;
      for i := 0 to |existing|
        invariant held <==> row in existing[..i]
      {
        if existing[i] == row {
          held := true;
        }
      }
      assert existing[..|existing|] == existing;
      if !held {
        return Refused(NotFound);
      }
      if |existing| <= 1 && !otherFactor && !Logins.SteppedUp(actor, now) {
        return Refused(StepUpRequired);
      }
      var revoked := store.RevokeCredential(row, actor.user);
      if !revoked {
        return Refused(NotFound);
      }
      return Done;
    }

    method RevokeAllFor(user: string)
      modifies store
      ensures store.db == WithoutKeysOf(old(store.db), user)
    {
      store.RevokeAllCredentials(user);
    }
  }
}
