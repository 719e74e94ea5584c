/** Exactly when a begun sign-in or ceremony can still be finished, over whole runs
    (authenticator.go:319-446; mfa.go:424-532; webauthn.go:350-422, 676-692). */
module PendingLife {
  import opened Prelude
  import opened Roles
  import opened State
  import opened System
  import opened Minted
  import opened PendingSteps
  import opened Provenance
  import opened SignInConditions
  import Totp
  import RecoveryCode

  // ---- Step-one tokens -----------------------------------------------------------------------

  /** Some step after j and before state n claims the token. */
  ghost predicate ClaimedSince(run: Run, j: nat, n: nat, t: string)
    requires run.Shaped() && n < |run.states|
  {
    exists k :: j < k < n && ClaimsAt(run, k, t)
  }

  lemma {:induction false} TokenRow(run: Run, j: nat, n: nat, t: string) returns (user: string)
    requires Facts(run) && j < n < |run.states| && run.outcomes[j] == MfaIssued(t)
    ensures ChecksPassword(run.env, run.states[j], run.steps[j], user)
    ensures t in run.states[n].pending.mfaTokens
    ensures run.states[n].pending.mfaTokens[t]
         == MfaToken(user, run.steps[j].now + 300_000_000_000, ClaimedSince(run, j, n, t))
  {
    assert StepFacts(run, n - 1);
    if n == j + 1 {
      user :| ChecksPassword(run.env, run.states[j], run.steps[j], user)
           && run.states[n].pending.mfaTokens == run.states[j].pending.mfaTokens[t := Issued(run.steps[j], user)];
    } else {
      user := TokenRow(run, j, n - 1, t);
      assert ClaimedSince(run, j, n, t) <==> ClaimedSince(run, j, n - 1, t) || ClaimsAt(run, n - 1, t);
      MintedGrows(run, j + 1, n - 1);
      assert StepFacts(run, j);
    }
  }

  /** A step-one token is good, at any instant in any later state, exactly until it
      is claimed or five minutes have passed since the password check it came from;
      and it is for the account that was checked. */
  lemma TokenGoodExactly(run: Run, j: nat, n: nat, t: string, now: Time) returns (user: string)
    requires run.Valid() && Tidy(run.states[0])
    requires j < n < |run.states| && run.outcomes[j] == MfaIssued(t)
    ensures ChecksPassword(run.env, run.states[j], run.steps[j], user)
    ensures t in run.states[n].pending.mfaTokens && run.states[n].pending.mfaTokens[t].user == user
    ensures TokenGood(run.states[n], now, t)
       <==> t != "" && !ClaimedSince(run, j, n, t) && now < run.steps[j].now + 300_000_000_000
  {
    FactsOf(run);
    user := TokenRow(run, j, n, t);
  }

  // ---- Challenges ----------------------------------------------------------------------------

  ghost predicate SpentSince(run: Run, b: nat, n: nat, c: string)
    requires run.Shaped() && n < |run.states|
  {
    exists k :: b < k < n && SpendsAt(run, k, c)
  }

  lemma {:induction false} ChallengeRow(run: Run, b: nat, n: nat, c: string)
    requires Facts(run) && b < n < |run.states| && run.outcomes[b] == CeremonyBegun(c)
    ensures Beginning(run.states[b], run.steps[b]).Some?
    ensures c in run.states[n].pending.challenges
    ensures var (user, purpose) := Beginning(run.states[b], run.steps[b]).value;
            run.states[n].pending.challenges[c]
            == Challenge(user, purpose, run.steps[b].now + 120_000_000_000, SpentSince(run, b, n, c))
  {
    assert StepFacts(run, n - 1);
    if n > b + 1 {
      ChallengeRow(run, b, n - 1, c);
      assert SpentSince(run, b, n, c) <==> SpentSince(run, b, n - 1, c) || SpendsAt(run, n - 1, c);
      MintedGrows(run, b + 1, n - 1);
      assert StepFacts(run, b);
    }
  }

  /** A challenge is good exactly for the purpose it was begun for, until it is
      spent or two minutes have passed. */
  lemma ChallengeGoodExactly(run: Run, b: nat, n: nat, c: string, now: Time, purpose: Purpose)
    requires run.Valid() && Tidy(run.states[0])
    requires b < n < |run.states| && run.outcomes[b] == CeremonyBegun(c)
    ensures Beginning(run.states[b], run.steps[b]).Some? && c in run.states[n].pending.challenges
    ensures run.states[n].pending.challenges[c].user == Beginning(run.states[b], run.steps[b]).value.0
    ensures ChallengeGood(run.states[n], now, c, purpose)
       <==> && purpose == Beginning(run.states[b], run.steps[b]).value.1
            && !SpentSince(run, b, n, c) && now < run.steps[b].now + 120_000_000_000
  {
    FactsOf(run);
    ChallengeRow(run, b, n, c);
  }

  // ---- What finishes a sign-in ------------------------------------------------------------------

  /** After a password check that asked for a second factor, in any later state and
      by anybody's request: a code opens a session for the account checked if and
      only if the token is unclaimed and younger than five minutes, the account is
      still enabled, and the code is good for it. */
  lemma CodeOpensASessionIff(run: Run, j: nat, n: nat, t: string, now: Time, actor: Identity, code: string,
                             token: string) returns (user: string)
    requires run.Valid() && Tidy(run.states[0])
    requires j < n < |run.states| && run.outcomes[j] == MfaIssued(t) && token !in run.states[n].minted
    ensures ChecksPassword(run.env, run.states[j], run.steps[j], user)
    ensures var (after, outcome) := LoginNext(run.env, run.states[n], now, actor, CompleteMFA(t, code, token));
            && (outcome == SessionIssued(token) <==>
                  && t != "" && !ClaimedSince(run, j, n, t) && now < run.steps[j].now + 300_000_000_000
                  && Open(run.states[n], user) && CodeGood(run.env, run.states[n], now, user, code))
            && (outcome == SessionIssued(token) ==> NewSessionIn(run.env, run.states[n], after, now, user, token))
  {
    user := TokenGoodExactly(run, j, n, t, now);
    CodeSignsInIff(run.env, run.states[n], now, actor, t, code, token);
    if LoginNext(run.env, run.states[n], now, actor, CompleteMFA(t, code, token)).1 == SessionIssued(token) {
      CodeSignInLeaves(run.env, run.states[n], now, actor, t, code, token);
    }
  }

  /** The six digits an authenticator shows for this half-minute are good, unless
      this half-minute's or a later one's were accepted before. */
  lemma CurrentDigitsAreGood(env: Env, db: Db, now: Time, s: nat, id: string, code: string)
    requires s * 30_000_000_000 <= now < (s + 1) * 30_000_000_000
    requires HoldsTotp(db, id) && |code| == 6 && forall i :: 0 <= i < 6 ==> '0' <= code[i] <= '9'
    requires var e := db.factors.enrollments[id];
             e.secret != "" && env.hotp(code, s, e.secret) == Totp.Match
    ensures CodeGood(env, db, now, id, code) <==> s > db.factors.enrollments[id].lastUsedStep
  {
    RecoveryCode.SixDigitsAreRouted(code);
    var e := db.factors.enrollments[id];
    Totp.AcceptedExactly(env.hotp, e.secret, code, now, s, e.lastUsedStep, s);
    if s > e.lastUsedStep {
      assert DigitsGood(env, db, now, id, code, s);
    }
  }

  /** A recovery code typed in either letter case, with dashes and spaces wherever
      they are put, is good exactly while it is unspent. */
  lemma TypedCodeIsGood(env: Env, db: Db, now: Time, id: string, drawn: string, typed: string)
    requires |drawn| == 16 && RecoveryCode.IsPlain(drawn) && RecoveryCode.Spells(typed, drawn)
    requires HoldsTotp(db, id)
    ensures CodeGood(env, db, now, id, typed) <==> UnusedCode(db, id, drawn)
  {
    RecoveryCode.AnySpellingNormalizes(typed, drawn);
    RecoveryCode.CodesAreNeverRoutedToTotp(typed);
  }

  /** After a ceremony begun by a second step: a key's answer opens a session for the
      account checked if and only if the challenge is unspent and younger than two
      minutes, the account is still enabled, and it holds the key. */
  lemma KeyOpensASessionIff(run: Run, b: nat, n: nat, c: string, now: Time, actor: Identity,
                            assertion: Option<string>, token: string)
    requires run.Valid() && Tidy(run.states[0]) && b < n < |run.states| && token !in run.states[n].minted
    requires run.outcomes[b] == CeremonyBegun(c) && run.steps[b].op.Sign? && run.steps[b].op.login.BeginPasskeyLogin?
    ensures Beginning(run.states[b], run.steps[b]).Some?
    ensures var user := Beginning(run.states[b], run.steps[b]).value.0;
            LoginNext(run.env, run.states[n], now, actor, CompletePasskeyLogin(c, assertion, token)).1
              == SessionIssued(token)
            <==> && !SpentSince(run, b, n, c) && now < run.steps[b].now + 120_000_000_000
                 && Open(run.states[n], user) && KeyAnswers(run.states[n], user, assertion)
  {
    ChallengeGoodExactly(run, b, n, c, now, SignIn);
    KeySignInFinishedIff(run.env, run.states[n], now, actor, c, assertion, token);
  }
}
