/** The environment of a real deployment: the encoded Argon2id hash and the
    shipped policy check in place of the functions the protocol is proved for. */
module Deployment {
  import opened Prelude
  import opened Roles
  import opened State
  import opened System
  import opened Minted
  import PasswordHash
  import PasswordPolicy
  import Rule = AccountRules
  import Logins = LoginRules
  import History = HistoryWindow
  import Conditions = SignInConditions
  import Addresses
  import Frames

  /** The environment hashes and verifies as password.go does, and accepts what
      the policy check finds nothing wrong with. */
  ghost predicate Deploys(env: Env, kdf: PasswordHash.Kdf, words: set<string>, generic: set<string>) {
    && (forall h, p :: env.verify(h, p) == PasswordHash.VerifyPassword(kdf, h, p))
    && (forall p, salt: Salt :: env.hash(p, salt) == PasswordHash.HashPassword(kdf, p, salt))
    && (forall h :: env.needsRehash(h) == PasswordHash.NeedsRehash(h))
    && (forall policy, p, details ::
          env.acceptable(policy, p, details) <==> PasswordPolicy.Accepts(policy, words, generic, p, details))
  }

  /** No two of the passwords in use collide under the key derivation, as this
      build uses it: at its own cost, under a salt of its own length, for a key of
      its own length. */
  ghost predicate CollisionFree(kdf: PasswordHash.Kdf, used: set<string>) {
    forall p, q, salt: Salt :: p in used && q in used && FreshKey(kdf, p, salt) == FreshKey(kdf, q, salt) ==> p == q
  }

  function FreshKey(kdf: PasswordHash.Kdf, password: string, salt: Salt): seq<Byte> {
    kdf(password, salt, PasswordHash.COST, 32)
  }

  /** A key of n bytes that says whether the password is `p`. */
  function Telling(p: string, password: string, n: nat): (key: seq<Byte>)
    ensures |key| == n
  {
    seq(n, _ => if password == p then 1 else 0)
  }

  /** The two assumptions about the key derivation go together, for any two
      passwords in use. */
  lemma CollisionFreedomIsPossible(p: string, q: string)
    ensures exists kdf :: PasswordHash.KeyLengths(kdf) && CollisionFree(kdf, {p, q})
  {
    var kdf: PasswordHash.Kdf := (password, salt, cost, n: nat) => Telling(p, password, n);
    forall a, b, salt: Salt | a in {p, q} && b in {p, q} && FreshKey(kdf, a, salt) == FreshKey(kdf, b, salt)
      ensures a == b
    {
      assert Telling(p, a, 32)[0] == Telling(p, b, 32)[0];
    }
    assert PasswordHash.KeyLengths(kdf) && CollisionFree(kdf, {p, q});
  }

  lemma HashVerifies(env: Env, kdf: PasswordHash.Kdf, words: set<string>, generic: set<string>, p: string, salt: Salt)
    requires Deploys(env, kdf, words, generic) && PasswordHash.KeyLengths(kdf)
    ensures env.verify(env.hash(p, salt), p) == Some(true)
  {
    PasswordHash.FreshHashVerifies(kdf, p, salt, p);
  }

  lemma NothingVerifiesEmpty(kdf: PasswordHash.Kdf, p: string)
    ensures PasswordHash.VerifyPassword(kdf, "", p).None?
  {
    assert !PasswordHash.HasDollar("");
    PasswordHash.SplitLast("");
  }

  /** A hash written here verifies, of the passwords in use, only its own. */
  lemma OnePasswordPerHash(kdf: PasswordHash.Kdf, used: set<string>, p: string, q: string, salt: Salt)
    requires PasswordHash.KeyLengths(kdf) && CollisionFree(kdf, used) && p in used && q in used
    requires PasswordHash.VerifyPassword(kdf, PasswordHash.HashPassword(kdf, p, salt), q) == Some(true)
    ensures p == q
  {
    PasswordHash.FreshHashVerifies(kdf, p, salt, q);
    assert FreshKey(kdf, p, salt) == FreshKey(kdf, q, salt);
  }

  /** What the password history is proved under, a deployment meets. */
  lemma DeploymentHashes(env: Env, kdf: PasswordHash.Kdf, words: set<string>, generic: set<string>, used: set<string>)
    requires Deploys(env, kdf, words, generic) && PasswordHash.KeyLengths(kdf) && CollisionFree(kdf, used)
    ensures History.Hashing(env, used)
  {
    forall p, salt: Salt
      ensures env.verify(env.hash(p, salt), p) == Some(true)
    {
      HashVerifies(env, kdf, words, generic, p, salt);
    }
    forall p
      ensures env.verify("", p) != Some(true)
    {
      NothingVerifiesEmpty(kdf, p);
    }
    forall p, q, salt: Salt | p in used && q in used && env.verify(env.hash(p, salt), q) == Some(true)
      ensures p == q
    {
      OnePasswordPerHash(kdf, used, p, q, salt);
    }
  }

  /** The history window of a deployment. */
  lemma NoRepeatInADeployment(run: Run, kdf: PasswordHash.Kdf, words: set<string>, generic: set<string>,
                              used: set<string>, n: nat, id: string, d: int, a: nat, b: nat)
    requires run.Valid() && Tidy(run.states[0]) && Deploys(run.env, kdf, words, generic)
    requires PasswordHash.KeyLengths(kdf) && CollisionFree(kdf, used) && History.Covers(run, used, id) && d >= 1
    requires forall i :: 0 <= i < |run.states| ==> History.DepthIs(run.states[i], id, d)
    requires n < |run.states| && b < |History.Passwords(run, n, id)| && 2 <= b - a <= d + 1
    ensures History.Passwords(run, n, id)[a] != History.Passwords(run, n, id)[b]
  {
    DeploymentHashes(run.env, kdf, words, generic, used);
    History.NoRepeatWithinTheWindow(run, used, n, id, d, a, b);
  }

  /** The cost upgrade at sign-in leaves a hash that verifies the password just
      typed and is not up for another upgrade. */
  lemma UpgradeAtSignInIsFinal(env: Env, kdf: PasswordHash.Kdf, words: set<string>, generic: set<string>, db: Db,
                               id: string, password: string, salt: Salt)
    requires Deploys(env, kdf, words, generic) && PasswordHash.KeyLengths(kdf) && id in db.accounts.users
    requires env.verify(db.accounts.users[id].hash, password) == Some(true)
    ensures var upgraded := Logins.Upgraded(env, db, id, password, salt).accounts.users[id].hash;
            env.verify(upgraded, password) == Some(true) && !env.needsRehash(upgraded)
  {
    PasswordHash.UpgradeIsFinal(kdf, db.accounts.users[id].hash, password, salt, password, salt);
  }

  // ---- Accounts hashed by earlier builds --------------------------------------------------

  /** What some build could have stored. */
  predicate Storable(d: PasswordHash.Decoded) {
    && 0 < d.params.memory <= 0xFFFF_FFFF && 0 < d.params.time <= 0xFFFF_FFFF && 0 < d.params.threads <= 0xFF
    && d.salt != [] && 0 < |d.sum| <= 1024
  }

  /** The key this password gives under the hash's own salt, cost and length is the
      one stored. */
  predicate Matches(kdf: PasswordHash.Kdf, d: PasswordHash.Decoded, password: string) {
    kdf(password, d.salt, d.params, |d.sum|) == d.sum
  }

  lemma StoredVerifies(env: Env, kdf: PasswordHash.Kdf, words: set<string>, generic: set<string>,
                       d: PasswordHash.Decoded, password: string)
    requires Deploys(env, kdf, words, generic) && Storable(d)
    ensures env.verify(PasswordHash.Encoded(d), password) == Some(Matches(kdf, d, password))
    ensures env.needsRehash(PasswordHash.Encoded(d)) <==> d.params.memory < 19456 || d.params.time < 2
    ensures PasswordHash.Encoded(d) != ""
  {
    PasswordHash.VerifiedAtItsOwnCost(kdf, d, password);
    NothingVerifiesEmpty(kdf, password);
  }

  /** Whatever the cost an account's password was hashed at, that password and no
      other takes its enabled account past the password step; and then the stored
      hash verifies it and is at no less than this build's cost: the old one if that
      was enough, and otherwise one written by this build. */
  lemma HashOfAnyCostSignsIn(env: Env, kdf: PasswordHash.Kdf, words: set<string>, generic: set<string>, db: Db,
                             now: Time, actor: Identity, email: string, password: string, salt: Salt, token: string,
                             id: string, d: PasswordHash.Decoded)
    requires Deploys(env, kdf, words, generic) && PasswordHash.KeyLengths(kdf) && Storable(d)
    requires Addresses.Indexed(db) && Conditions.Addressed(db, email, id) && token !in db.minted
    requires db.accounts.users[id].hash == PasswordHash.Encoded(d) && !db.accounts.users[id].disabled
    ensures var (after, outcome) := LoginNext(env, db, now, actor, Login(email, password, salt, token));
            if Matches(kdf, d, password) then
              && outcome == (if Conditions.HoldsKey(db, id) || Conditions.HoldsTotp(db, id) then MfaIssued(token)
                             else SessionIssued(token))
              && id in after.accounts.users
              && UpgradedTo(env, kdf, d, password, salt, after.accounts.users[id].hash)
            else after == db && outcome == Refused(InvalidCredentials)
  {
    StoredVerifies(env, kdf, words, generic, d, password);
    Conditions.SignInIff(env, db, now, actor, email, password, salt, token, id);
    if Matches(kdf, d, password) {
      Conditions.SignInLeaves(env, db, now, actor, email, password, salt, token, id);
      HashVerifies(env, kdf, words, generic, password, salt);
      PasswordHash.FreshHashVerifies(kdf, password, salt, password);
    } else {
      Conditions.AddressedIsFound(env, db, now, actor, email, password, salt, token, id);
    }
  }

  /** The hash verifies the password, needs no upgrade, and is the stored one unless
      that was made with too little memory or too few passes. */
  ghost predicate UpgradedTo(env: Env, kdf: PasswordHash.Kdf, d: PasswordHash.Decoded, password: string, salt: Salt,
                             hash: string)
  {
    && hash == (if d.params.memory < 19456 || d.params.time < 2 then PasswordHash.HashPassword(kdf, password, salt)
                else PasswordHash.Encoded(d))
    && env.verify(hash, password) == Some(true) && !env.needsRehash(hash)
  }

  // ---- The floor under every password ----------------------------------------------------

  /** The organization's stored policy is one an administrator may save. */
  ghost predicate SavableFor(db: Db, org: string) {
    org in db.accounts.policies ==> PasswordPolicy.Savable(db.accounts.policies[org])
  }

  lemma SavingKeepsPolicies(rules: Rules, db: Db, actor: Identity, policy: PasswordPolicy.Policy, org: string)
    requires SavableFor(db, org)
    ensures SavableFor(Rule.SetPasswordPolicy(rules, db, actor, policy).0, org)
  {
  }

  lemma AdminKeepsPolicies(env: Env, db: Db, step: Step, org: string)
    requires step.op.Admin? && SavableFor(db, org)
    ensures SavableFor(AdminNext(env, db, step.rules, step.actor, step.op.admin).0, org)
  {
    if step.op.admin.SetPasswordPolicy? {
      SavingKeepsPolicies(step.rules, db, step.actor, step.op.admin.policy, org);
    } else if Frames.Stores(step.op.admin) {
      Frames.StoringFrame(env, db, step.rules, step.actor, step.op.admin);
    } else if Frames.Targets(step.op.admin) {
      Frames.TargetedFrame(env, db, step.rules, step.actor, step.op.admin);
    }
  }

  lemma StepKeepsPolicies(env: Env, db: Db, step: Step, org: string)
    requires SavableFor(db, org)
    ensures SavableFor(Next(env, db, step).0, org)
  {
    match step.op {
      case Admin(op) => AdminKeepsPolicies(env, db, step, org);
      case Sign(op) => Frames.LoginFrame(env, db, step.now, step.actor, op);
      case Factor(op) => Frames.FactorFrame(env, db, step.now, step.rules, step.actor, op);
    }
  }

  lemma {:induction false} RunKeepsPolicies(run: Run, n: nat, org: string)
    requires run.Valid() && n < |run.states| && SavableFor(run.states[0], org)
    ensures SavableFor(run.states[n], org)
  {
    if n > 0 {
      RunKeepsPolicies(run, n - 1, org);
      StepKeepsPolicies(run.env, run.states[n - 1], run.steps[n - 1], org);
      assert run.Takes(n - 1);
    }
  }

  /** Some policy in force accepted the password for an address and a name. */
  ghost predicate WasAccepted(env: Env, db: Db, password: string) {
    exists org, email, name :: env.acceptable(PolicyFor(db, org), password, [email, name])
  }

  lemma GivenWasAccepted(env: Env, db: Db, step: Step, id: string)
    requires History.Given(step, Next(env, db, step).1, id).Some?
    ensures WasAccepted(env, db, History.Given(step, Next(env, db, step).1, id).value)
  {
  }

  ghost predicate AcceptedAt(run: Run, i: nat, id: string)
    requires run.Shaped() && i < |run.steps|
  {
    var given := History.Given(run.steps[i], run.outcomes[i], id);
    && (given.Some? ==> WasAccepted(run.env, run.states[i], given.value))
    && (forall org :: SavableFor(run.states[i], org))
  }

  lemma RunAccepts(run: Run, i: nat, id: string)
    requires run.Valid() && i < |run.steps| && forall org :: SavableFor(run.states[0], org)
    ensures AcceptedAt(run, i, id)
  {
    forall org
      ensures SavableFor(run.states[i], org)
    {
      RunKeepsPolicies(run, i, org);
    }
    assert run.Takes(i);
    if History.Given(run.steps[i], run.outcomes[i], id).Some? {
      GivenWasAccepted(run.env, run.states[i], run.steps[i], id);
    }
  }

  lemma AcceptedMeetsTheFloor(env: Env, kdf: PasswordHash.Kdf, words: set<string>, generic: set<string>, db: Db,
                              password: string)
    requires Deploys(env, kdf, words, generic) && WasAccepted(env, db, password)
    requires forall org :: SavableFor(db, org)
    ensures 12 <= |password| <= 256
  {
    var org, email, name :| env.acceptable(PolicyFor(db, org), password, [email, name]);
    assert SavableFor(db, org);
    PasswordPolicy.SavablePoliciesKeepTheFloor(PolicyFor(db, org), words, generic, password, [email, name]);
  }

  lemma {:induction false} AcceptedPasswordsMeetTheFloor(
    run: Run, kdf: PasswordHash.Kdf, words: set<string>, generic: set<string>, n: nat, id: string, k: nat)
    requires run.Shaped() && Deploys(run.env, kdf, words, generic)
    requires forall i :: 0 <= i < |run.steps| ==> AcceptedAt(run, i, id)
    requires n < |run.states| && k < |History.Passwords(run, n, id)|
    ensures 12 <= |History.Passwords(run, n, id)[k]| <= 256
  {
    var given := History.Given(run.steps[n - 1], run.outcomes[n - 1], id);
    assert AcceptedAt(run, n - 1, id);
    if given.Some? && k == 0 {
      AcceptedMeetsTheFloor(run.env, kdf, words, generic, run.states[n - 1], given.value);
    } else {
      AcceptedPasswordsMeetTheFloor(run, kdf, words, generic, n - 1, id, if given.Some? then k - 1 else k);
    }
  }

  /** Whatever policies administrators save along the way, no account is ever given
      a password outside the shipped bounds. */
  lemma EveryPasswordMeetsTheFloor(
    run: Run, kdf: PasswordHash.Kdf, words: set<string>, generic: set<string>, n: nat, id: string, k: nat)
    requires run.Valid() && Deploys(run.env, kdf, words, generic)
    requires forall org :: SavableFor(run.states[0], org)
    requires n < |run.states| && k < |History.Passwords(run, n, id)|
    ensures 12 <= |History.Passwords(run, n, id)[k]| <= 256
  {
    forall i | 0 <= i < |run.steps|
      ensures AcceptedAt(run, i, id)
    {
      RunAccepts(run, i, id);
    }
    AcceptedPasswordsMeetTheFloor(run, kdf, words, generic, n, id, k);
  }
}
