/** The persistence behind the use cases: one object holding all tables, each
    method one store call as its interface documents it. */
module Stores {
  import opened Prelude
  import opened Roles
  import opened State
  import opened Text
  import PasswordPolicy

  class Store {
    var db: Db

    constructor (db: Db)
      ensures this.db == db
    {
      this.db := db;
    }

    // ---- Accounts --------------------------------------------------------------------

    /** The ids of an organization's accounts, each once. */
    method ListUsers(org: string) returns (ids: seq<string>)
      ensures forall id :: id in ids <==> id in db.accounts.users && db.accounts.users[id].org == org
    {
      ids := [];
      var todo := db.accounts.users.Keys;
      while todo != {}
        invariant todo <= db.accounts.users.Keys
        invariant forall id :: id in ids <==>
            id in db.accounts.users && id !in todo && db.accounts.users[id].org == org
        decreases |todo|
      {
        var id :| id in todo;
        todo := todo - {id};
        if db.accounts.users[id].org == org {
          ids := ids + [id];
        }
      }
    }

    /** False on a conflict: the address or the id is taken. */
    method CreateUser(id: string, u: User) returns (ok: bool)
      modifies this
      ensures ok <==> Lower(u.email) !in old(db).accounts.emails && id !in old(db).minted
      ensures db == if ok then WithMinted(WithNewUser(old(db), id, u, Lower(u.email)), id) else old(db)
    {
      if Lower(u.email) in db.accounts.emails || id in db.minted {
        return false;
      }
      db := WithMinted(WithNewUser(db, id, u, Lower(u.email)), id);
      return true;
    }

    method SetDisabled(id: string, disabled: bool)
      requires id in db.accounts.users
      modifies this
      ensures db == WithUser(old(db), id, old(db).accounts.users[id].(disabled := disabled))
    {
      db := WithUser(db, id, db.accounts.users[id].(disabled := disabled));
    }

    method SetRole(id: string, role: Role)
      requires id in db.accounts.users
      modifies this
      ensures db == WithUser(old(db), id, old(db).accounts.users[id].(role := role))
    {
      db := WithUser(db, id, db.accounts.users[id].(role := role));
    }

    method SetPasswordHash(id: string, hash: string)
      requires id in db.accounts.users
      modifies this
      ensures db == WithHash(old(db), id, hash)
    {
      db := WithHash(db, id, hash);
    }

    /** The account, and with it its sessions and keys. */
    method DeleteUser(id: string)
      requires id in db.accounts.users
      modifies this
      ensures db == WithoutUser(old(db), id, Lower(old(db).accounts.users[id].email))
    {
      db := WithoutUser(db, id, Lower(db.accounts.users[id].email));
    }

    method RecordPasswordChange(id: string, previous: string, depth: int)
      modifies this
      ensures db == WithChangeRecorded(old(db), id, previous, depth)
    {
      var rows := [previous] + HistoryOf(db, id);
      db := db.(accounts := db.accounts.(history := db.accounts.history[id := Newest(rows, depth)]));
    }

    method SavePolicy(org: string, policy: PasswordPolicy.Policy)
      modifies this
      ensures db == old(db).(accounts := old(db).accounts.(policies := old(db).accounts.policies[org := policy]))
    {
      db := db.(accounts := db.accounts.(policies := db.accounts.policies[org := policy]));
    }

    method CreateAPIKey(key: string, k: ApiKey) returns (ok: bool)
      modifies this
      ensures ok <==> key !in old(db).minted
      ensures db == if ok then WithMinted(WithKey(old(db), key, k), key) else old(db)
    {
      if key in db.minted {
        return false;
      }
      db := WithMinted(WithKey(db, key, k), key);
      return true;
    }

    method RevokeAPIKey(key: string)
      requires key in db.accounts.keys
      modifies this
      ensures db == WithKey(old(db), key, old(db).accounts.keys[key].(revoked := true))
    {
      db := WithKey(db, key, db.accounts.keys[key].(revoked := true));
    }

    // ---- Sessions --------------------------------------------------------------------

    method InsertSession(token: string, s: Session) returns (ok: bool)
      modifies this
      ensures ok <==> token !in old(db).minted
      ensures db == if ok then WithMinted(WithSession(old(db), token, s), token) else old(db)
    {
      if token in db.minted {
        return false;
      }
      db := WithMinted(WithSession(db, token, s), token);
      return true;
    }

    /** Moves the idle window, never past the ceiling. */
    method TouchSession(token: string, expiresAt: Time)
      requires token in db.sessions
      modifies this
      ensures var s := old(db).sessions[token];
              db == WithSession(old(db), token, s.(expiresAt :=
                      if s.absoluteExpiresAt < expiresAt then s.absoluteExpiresAt else expiresAt))
    {
      var s := db.sessions[token];
      var clamped := if s.absoluteExpiresAt < expiresAt then s.absoluteExpiresAt else expiresAt;
      db := WithSession(db, token, s.(expiresAt := clamped));
    }

    method RevokeSession(token: string)
      requires token in db.sessions
      modifies this
      ensures db == WithSession(old(db), token, old(db).sessions[token].(revoked := true))
    {
      db := WithSession(db, token, db.sessions[token].(revoked := true));
    }

    method RevokeSessionsByUser(id: string)
      modifies this
      ensures db == WithoutSessionsOf(old(db), id)
    {
      db := db.(sessions := RevokedFor(db.sessions, id));
    }

    method StampStepUp(token: string, at: Time)
      modifies this
      ensures db == WithStamp(old(db), token, at)
    {
      if token in db.sessions {
        db := WithSession(db, token, db.sessions[token].(steppedUpAt := Some(at)));
      }
    }

    // ---- Second factors ----------------------------------------------------------------

    method PutTOTP(id: string, e: Enrollment)
      modifies this
      ensures db == WithEnrollment(old(db), id, e)
    {
      db := WithEnrollment(db, id, e);
    }

    /** Refuses to move the replay counter backwards. */
    method SetTOTPLastUsedStep(id: string, step: int)
      requires id in db.factors.enrollments
      modifies this
      ensures var e := old(db).factors.enrollments[id];
              db == WithEnrollment(old(db), id,
                      e.(lastUsedStep := if step > e.lastUsedStep then step else e.lastUsedStep))
    {
      var e := db.factors.enrollments[id];
      db := WithEnrollment(db, id, e.(lastUsedStep := if step > e.lastUsedStep then step else e.lastUsedStep));
    }

    method DeleteTOTP(id: string)
      modifies this
      ensures db == WithoutEnrollment(old(db), id)
    {
      db := WithoutEnrollment(db, id);
    }

    method ReplaceRecoveryCodes(id: string, codes: set<string>)
      modifies this
      ensures db == WithCodes(old(db), id, codes)
    {
      db := WithCodes(db, id, codes);
    }

    /** Claims one unused code, atomically. */
    method SpendRecoveryCode(id: string, code: string) returns (spent: bool)
      modifies this
      ensures spent <==> UnusedCode(old(db), id, code)
      ensures db == if UnusedCode(old(db), id, code)
                    then WithRecovery(old(db), id, old(db).factors.recovery[id][code := true]) else old(db)
    {
      if !UnusedCode(db, id, code) {
        return false;
      }
      db := WithRecovery(db, id, db.factors.recovery[id][code := true]);
      return true;
    }

    method InsertMFAToken(token: string, t: MfaToken) returns (ok: bool)
      modifies this
      ensures ok <==> token !in old(db).minted
      ensures db == if ok then WithMinted(WithToken(old(db), token, t), token) else old(db)
    {
      if token in db.minted {
        return false;
      }
      db := WithMinted(WithToken(db, token, t), token);
      return true;
    }

    /** Marks a live token used and says whose it is, atomically. */
    method ClaimMFAToken(token: string, now: Time) returns (user: Option<string>)
      modifies this
      ensures var live := token in old(db).pending.mfaTokens && !old(db).pending.mfaTokens[token].used
                          && now < old(db).pending.mfaTokens[token].expiresAt;
              && user == (if live then Some(old(db).pending.mfaTokens[token].user) else None)
              && db == if live then WithToken(old(db), token, old(db).pending.mfaTokens[token].(used := true))
                       else old(db)
    {
      if token !in db.pending.mfaTokens {
        return None;
      }
      var t := db.pending.mfaTokens[token];
      if t.used || now >= t.expiresAt {
        return None;
      }
      db := WithToken(db, token, t.(used := true));
      return Some(t.user);
    }

    // ---- Security keys -----------------------------------------------------------------

    /** The rows of an account's keys, each once. */
    method ListCredentials(user: string) returns (rows: seq<string>)
      ensures forall i :: 0 <= i < |rows| ==>
                rows[i] in db.factors.credentials && db.factors.credentials[rows[i]].user == user
      ensures forall row :: row in db.factors.credentials && db.factors.credentials[row].user == user ==> row in rows
      ensures |rows| == |KeysOf(db, user)|
    {
      rows := [];
      var todo := db.factors.credentials.Keys;
      ghost var listed: set<string> := {};
      while todo != {}
        invariant todo <= db.factors.credentials.Keys
        invariant listed == set row | row in KeysOf(db, user) && row !in todo
        invariant forall i :: 0 <= i < |rows| ==> rows[i] in listed
        invariant (forall row :: row in listed ==> row in rows) && |rows| == |listed|
        decreases |todo|
      {
        var row :| row in todo;
        todo := todo - {row};
        if db.factors.credentials[row].user == user {
          rows := rows + [row];
          listed := listed + {row};
        }
      }
      assert listed == KeysOf(db, user);
    }

    method InsertCredential(row: string, c: Credential) returns (ok: bool)
      modifies this
      ensures ok <==> row !in old(db).minted
      ensures db == if ok then WithMinted(WithCredential(old(db), row, c), row) else old(db)
    {
      if row in db.minted {
        return false;
      }
      db := WithMinted(WithCredential(db, row, c), row);
      return true;
    }

    method RevokeCredential(row: string, user: string) returns (revoked: bool)
      modifies this
      ensures revoked <==> row in old(db).factors.credentials && old(db).factors.credentials[row].user == user
      ensures db == if revoked then WithoutCredential(old(db), row) else old(db)
    {
      if row !in db.factors.credentials || db.factors.credentials[row].user != user {
        return false;
      }
      db := WithoutCredential(db, row);
      return true;
    }

    method RevokeAllCredentials(user: string)
      modifies this
      ensures db == WithoutKeysOf(old(db), user)
    {
      db := WithoutKeysOf(db, user);
    }

    method InsertChallenge(id: string, c: Challenge) returns (ok: bool)
      modifies this
      ensures ok <==> id !in old(db).minted
      ensures db == if ok then WithMinted(WithChallenge(old(db), id, c), id) else old(db)
    {
      if id in db.minted {
        return false;
      }
      db := WithMinted(WithChallenge(db, id, c), id);
      return true;
    }

    /** ClaimChallenge with a user, ClaimLoginChallenge and
        ClaimPasswordlessChallenge without: spends an open challenge of the purpose
        and says whose ceremony it was. */
    method ClaimChallenge(id: string, purpose: Purpose, user: Option<string>, now: Time) returns (owner: Option<string>)
      modifies this
      ensures var open := id in old(db).pending.challenges && !old(db).pending.challenges[id].used
                          && old(db).pending.challenges[id].purpose == purpose
                          && now < old(db).pending.challenges[id].expiresAt
                          && (user.Some? ==> old(db).pending.challenges[id].user == user.value);
              && owner == (if open then Some(old(db).pending.challenges[id].user) else None)
              && db == if open then WithChallenge(old(db), id, old(db).pending.challenges[id].(used := true))
                       else old(db)
    {
      if id !in db.pending.challenges {
        return None;
      }
      var c := db.pending.challenges[id];
      if c.used || c.purpose != purpose || now >= c.expiresAt || (user.Some? && c.user != user.value) {
        return None;
      }
      db := WithChallenge(db, id, c.(used := true));
      return Some(c.user);
    }
  }
}
