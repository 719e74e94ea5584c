/** Where a two-step session comes from (authenticator.go:205-269, 319-374,
    427-446; mfa.go:500-532; webauthn.go:350-422, 676-692). */
module Provenance {
  import opened Prelude
  import opened Roles
  import opened State
  import opened System
  import opened Minted
  import opened PendingSteps
  import Logins = LoginRules
  import Frames

  // ---- Facts about each step -----------------------------------------------------------

  /** A session issued by a second step: the claim went through, and the session
      is for the account the token or challenge names, enabled at that moment. */
  ghost predicate IssueStep(before: Db, after: Db, step: Step, outcome: Outcome) {
    outcome.SessionIssued? && step.op.Sign? ==>
      match step.op.login
      case CompleteMFA(mfaToken, _, _) =>
        && Claims(before, step)
        && Enabled(before, before.pending.mfaTokens[mfaToken].user)
        && outcome.token in after.sessions
        && after.sessions[outcome.token].user == before.pending.mfaTokens[mfaToken].user
      case CompletePasskeyLogin(challenge, _, _) =>
        && Spends(before, step)
        && Enabled(before, before.pending.challenges[challenge].user)
        && outcome.token in after.sessions
        && after.sessions[outcome.token].user == before.pending.challenges[challenge].user
      case _ => true
  }

  lemma MfaIssueStep(env: Env, before: Db, step: Step, mfaToken: string, code: string, token: string)
    requires step.op == Sign(CompleteMFA(mfaToken, code, token))
    ensures var (after, outcome) := Logins.CompleteMFA(env, before, step.now, mfaToken, code, token);
            IssueStep(before, after, step, outcome)
  {
    if Logins.Claimable(before, step.now, mfaToken) {
      Frames.VerifyFactorFrame(env, Logins.Claimed(before, mfaToken), step.now,
                               before.pending.mfaTokens[mfaToken].user, code);
    }
  }

  lemma PasskeyIssueStep(env: Env, before: Db, step: Step, challenge: string, assertion: Option<string>, token: string)
    requires step.op == Sign(CompletePasskeyLogin(challenge, assertion, token))
    ensures var (after, outcome) := Logins.CompletePasskeyLogin(env, before, step.now, challenge, assertion, token);
            IssueStep(before, after, step, outcome)
  {
  }

  lemma AnyIssueStep(env: Env, before: Db, step: Step)
    ensures var (after, outcome) := Next(env, before, step);
            IssueStep(before, after, step, outcome)
  {
    if step.op.Sign? && step.op.login.CompleteMFA? {
      MfaIssueStep(env, before, step, step.op.login.mfaToken, step.op.login.code, step.op.login.token);
    } else if step.op.Sign? && step.op.login.CompletePasskeyLogin? {
      PasskeyIssueStep(env, before, step, step.op.login.challenge, step.op.login.assertion, step.op.login.token);
    }
  }

  /** What the rest of this module uses of a run. */
  ghost predicate Facts(run: Run) {
    && run.Shaped()
    && (forall i, j :: 0 <= i <= j < |run.steps| ==> run.steps[i].now <= run.steps[j].now)
    && (forall i :: 0 <= i < |run.steps| ==> StepFacts(run, i))
  }

  ghost predicate StepFacts(run: Run, i: nat)
    requires run.Shaped() && i < |run.steps|
  {
    && run.states[i].minted <= run.states[i + 1].minted
    && run.states[i].pending.mfaTokens.Keys <= run.states[i].minted
    && run.states[i].pending.challenges.Keys <= run.states[i].minted
    && TokenStep(run.env, run.states[i], run.states[i + 1], run.steps[i], run.outcomes[i])
    && ChallengeStep(run.states[i], run.states[i + 1], run.steps[i], run.outcomes[i])
    && IssueStep(run.states[i], run.states[i + 1], run.steps[i], run.outcomes[i])
  }

  lemma FactsOfStep(run: Run, i: nat)
    requires run.Valid() && i < |run.steps| && Tidy(run.states[0])
    ensures StepFacts(run, i)
  {
    RunGrows(run, 0, i);
    StepGrows(run.env, run.states[i], run.steps[i]);
    AnyTokenStep(run.env, run.states[i], run.steps[i]);
    AnyChallengeStep(run.env, run.states[i], run.steps[i]);
    AnyIssueStep(run.env, run.states[i], run.steps[i]);
    assert run.Takes(i);
  }

  lemma FactsOf(run: Run)
    requires run.Valid() && Tidy(run.states[0])
    ensures Facts(run)
  {
    forall i | 0 <= i < |run.steps|
      ensures StepFacts(run, i)
    {
      FactsOfStep(run, i);
    }
  }

  lemma MintedGrows(run: Run, i: nat, j: nat)
    requires Facts(run) && i <= j < |run.states|
    ensures run.states[i].minted <= run.states[j].minted
    decreases j
  {
    if i < j {
      MintedGrows(run, i, j - 1);
      assert StepFacts(run, j - 1);
    }
  }

  // ---- Step-one tokens -----------------------------------------------------------------

  /** Step k claims the token. */
  predicate ClaimsAt(run: Run, k: nat, t: string)
    requires run.Shaped() && k < |run.steps|
  {
    Claims(run.states[k], run.steps[k]) && Presented(run.steps[k]).value == t
  }

  lemma {:induction false} TokenPersists(run: Run, i: nat, j: nat, t: string)
    requires Facts(run) && i <= j < |run.states| && t in run.states[i].pending.mfaTokens
    ensures t in run.states[j].pending.mfaTokens
    ensures run.states[i].pending.mfaTokens[t].used ==> run.states[j].pending.mfaTokens[t].used
    decreases j
  {
    if i < j {
      TokenPersists(run, i, j - 1, t);
      assert StepFacts(run, j - 1);
    }
  }

  /** A token is claimed at most once. */
  lemma ClaimsAgree(run: Run, k: nat, l: nat, t: string)
    requires Facts(run) && k < |run.steps| && l < |run.steps|
    requires ClaimsAt(run, k, t) && ClaimsAt(run, l, t)
    ensures k == l
  {
    var (a, b) := if k <= l then (k, l) else (l, k);
    if a < b {
      assert StepFacts(run, a);
      TokenPersists(run, a + 1, b, t);
    }
  }

  /** The step that issued a token: a password check of its account. */
  lemma {:induction false} OriginOfToken(run: Run, n: nat, t: string) returns (j: nat)
    requires Facts(run) && n < |run.states|
    requires t !in run.states[0].pending.mfaTokens && t in run.states[n].pending.mfaTokens
    ensures j < n && run.outcomes[j] == MfaIssued(t)
    ensures ChecksPassword(run.env, run.states[j], run.steps[j], run.states[n].pending.mfaTokens[t].user)
    ensures run.states[n].pending.mfaTokens[t].expiresAt == run.steps[j].now + 5 * 60_000_000_000
  {
    assert StepFacts(run, n - 1);
    if t in run.states[n - 1].pending.mfaTokens {
      j := OriginOfToken(run, n - 1, t);
    } else {
      j := n - 1;
    }
  }

  // ---- Challenges ----------------------------------------------------------------------

  /** Step i completes the challenge. */
  predicate SpendsAt(run: Run, i: nat, c: string)
    requires run.Shaped() && i < |run.steps|
  {
    Spends(run.states[i], run.steps[i]) && Finishing(run.steps[i]).value.0 == c
  }

  lemma {:induction false} ChallengePersists(run: Run, i: nat, j: nat, c: string)
    requires Facts(run) && i <= j < |run.states| && c in run.states[i].pending.challenges
    ensures c in run.states[j].pending.challenges
    ensures run.states[i].pending.challenges[c].used ==> run.states[j].pending.challenges[c].used
    decreases j
  {
    if i < j {
      ChallengePersists(run, i, j - 1, c);
      assert StepFacts(run, j - 1);
    }
  }

  /** A challenge completes at most one ceremony. */
  lemma SpentOnce(run: Run, i: nat, l: nat, c: string)
    requires Facts(run) && i < |run.steps| && l < |run.steps|
    requires SpendsAt(run, i, c) && SpendsAt(run, l, c)
    ensures i == l
  {
    var (a, b) := if i <= l then (i, l) else (l, i);
    if a < b {
      assert StepFacts(run, a);
      ChallengePersists(run, a + 1, b, c);
    }
  }

  /** The step that began a ceremony: its challenge is for whom and for what that
      step began it. */
  lemma {:induction false} ChallengeOrigin(run: Run, n: nat, c: string) returns (b: nat)
    requires Facts(run) && n < |run.states|
    requires c !in run.states[0].pending.challenges && c in run.states[n].pending.challenges
    ensures b < n && run.outcomes[b] == CeremonyBegun(c)
    ensures var challenge := run.states[n].pending.challenges[c];
            && Beginning(run.states[b], run.steps[b]) == Some((challenge.user, challenge.purpose))
            && challenge.expiresAt == run.steps[b].now + 2 * 60_000_000_000
  {
    assert StepFacts(run, n - 1);
    if c in run.states[n - 1].pending.challenges {
      b := ChallengeOrigin(run, n - 1, c);
    } else {
      b := n - 1;
    }
  }

  // ---- Provenance ----------------------------------------------------------------------

  /** The second step of a sign-in, ending in a session. */
  predicate SecondStep(run: Run, i: nat)
    requires run.Shaped() && i < |run.steps|
  {
    && run.outcomes[i].SessionIssued? && run.steps[i].op.Sign?
    && (run.steps[i].op.login.CompleteMFA? || run.steps[i].op.login.CompletePasskeyLogin?)
  }

  /** The account a session was issued for. */
  ghost predicate IssuedFor(run: Run, i: nat, user: string)
    requires run.Shaped() && i < |run.steps|
  {
    && run.outcomes[i].SessionIssued?
    && run.outcomes[i].token in run.states[i + 1].sessions
    && run.states[i + 1].sessions[run.outcomes[i].token].user == user
  }

  /** Step k, which claimed the token that let step i issue its session: step i
      itself for a code, the beginning of the ceremony for a security key. */
  predicate ClaimBehind(run: Run, i: nat, k: nat)
    requires run.Shaped() && k <= i < |run.steps|
  {
    if run.steps[i].op.Sign? && run.steps[i].op.login.CompletePasskeyLogin? then
      && run.outcomes[k] == CeremonyBegun(run.steps[i].op.login.challenge)
      && SpendsAt(run, i, run.steps[i].op.login.challenge)
      && run.steps[i].now < run.steps[k].now + 2 * 60_000_000_000
    else k == i
  }

  /** The session issued by step i goes back to the password check of step j: of
      the same account, through one token claimed within five minutes. */
  ghost predicate TracesTo(run: Run, i: nat, k: nat, j: nat, t: string, user: string)
    requires run.Shaped() && i < |run.steps|
  {
    && j < k <= i
    && SecondStep(run, i) && IssuedFor(run, i, user) && Enabled(run.states[i], user)
    && ChecksPassword(run.env, run.states[j], run.steps[j], user)
    && run.outcomes[j] == MfaIssued(t)
    && ClaimsAt(run, k, t)
    && run.steps[k].now < run.steps[j].now + 5 * 60_000_000_000
    && ClaimBehind(run, i, k)
  }

  lemma MfaSessionTraces(run: Run, i: nat) returns (j: nat, t: string, user: string)
    requires Facts(run) && i < |run.steps| && run.states[0].pending == PendingTables(map[], map[])
    requires SecondStep(run, i) && run.steps[i].op.login.CompleteMFA?
    ensures TracesTo(run, i, i, j, t, user)
  {
    assert StepFacts(run, i);
    t := run.steps[i].op.login.mfaToken;
    user := run.states[i].pending.mfaTokens[t].user;
    j := OriginOfToken(run, i, t);
  }

  lemma PasskeySessionTraces(run: Run, i: nat) returns (j: nat, k: nat, t: string, user: string)
    requires Facts(run) && i < |run.steps| && run.states[0].pending == PendingTables(map[], map[])
    requires SecondStep(run, i) && run.steps[i].op.login.CompletePasskeyLogin?
    ensures TracesTo(run, i, k, j, t, user)
  {
    assert StepFacts(run, i);
    var c := run.steps[i].op.login.challenge;
    user := run.states[i].pending.challenges[c].user;
    k := ChallengeOrigin(run, i, c);
    t := Presented(run.steps[k]).value;
    j := OriginOfToken(run, k, t);
  }

  /** Provenance: every session a second step issues goes back to a password check
      of the same account, at most five minutes before a code was presented, or
      five and then two before a security key answered. */
  lemma SecondStepHasPasswordCheck(run: Run, i: nat) returns (j: nat, k: nat, t: string, user: string)
    requires run.Valid() && Tidy(run.states[0]) && run.states[0].pending == PendingTables(map[], map[])
    requires i < |run.steps| && SecondStep(run, i)
    ensures TracesTo(run, i, k, j, t, user)
    ensures run.steps[i].now < run.steps[j].now
              + if run.steps[i].op.login.CompleteMFA? then 5 * 60_000_000_000 else 7 * 60_000_000_000
  {
    FactsOf(run);
    if run.steps[i].op.login.CompleteMFA? {
      j, t, user := MfaSessionTraces(run, i);
      k := i;
    } else {
      j, k, t, user := PasskeySessionTraces(run, i);
    }
  }

  /** The password checks are distinct: one check yields at most one session. */
  lemma OneSessionPerPasswordCheck(run: Run, i: nat, k: nat, j: nat, t: string, user: string,
                                   i': nat, k': nat, t': string, user': string)
    requires run.Valid() && Tidy(run.states[0]) && i < |run.steps| && i' < |run.steps|
    requires TracesTo(run, i, k, j, t, user) && TracesTo(run, i', k', j, t', user')
    ensures i == i'
  {
    FactsOf(run);
    ClaimsAgree(run, k, k', t);
    if run.steps[i].op.login.CompletePasskeyLogin? && run.steps[i'].op.login.CompletePasskeyLogin? {
      SpentOnce(run, i, i', run.steps[i].op.login.challenge);
    }
  }

  lemma LoginAsAlone(env: Env, db: Db, now: Time, id: string, password: string, salt: Salt, token: string)
    requires id in db.accounts.users
    requires Logins.LoginAs(env, db, now, id, password, salt, token).1.SessionIssued?
    ensures !RequiresSecondFactor(db, id)
  {
    Frames.UpgradedFrame(env, db, id, password, salt);
  }

  /** The password alone never opens an account that has a second factor. */
  lemma PasswordAloneNeverSuffices(env: Env, db: Db, step: Step, user: string)
    requires ChecksPassword(env, db, step, user)
    requires Next(env, db, step).1.SessionIssued?
    ensures !RequiresSecondFactor(db, user)
  {
    var op := step.op.login;
    LoginAsAlone(env, db, step.now, user, op.password, op.salt, op.token);
  }

  /** In every run, a step-one token is claimed at most once. */
  lemma ClaimedOnce(run: Run, k: nat, l: nat, t: string)
    requires run.Valid() && Tidy(run.states[0]) && k < |run.steps| && l < |run.steps|
    requires ClaimsAt(run, k, t) && ClaimsAt(run, l, t)
    ensures k == l
  {
    FactsOf(run);
    ClaimsAgree(run, k, l, t);
  }

  /** In every run, a step-one token comes from a password check of the account it
      names, and lives five minutes from there. */
  lemma TokenOrigin(run: Run, n: nat, t: string) returns (j: nat)
    requires run.Valid() && Tidy(run.states[0]) && n < |run.states|
    requires t !in run.states[0].pending.mfaTokens && t in run.states[n].pending.mfaTokens
    ensures j < n && run.outcomes[j] == MfaIssued(t)
    ensures ChecksPassword(run.env, run.states[j], run.steps[j], run.states[n].pending.mfaTokens[t].user)
    ensures run.states[n].pending.mfaTokens[t].expiresAt == run.steps[j].now + 5 * 60_000_000_000
  {
    FactsOf(run);
    j := OriginOfToken(run, n, t);
  }

  // ---- Counting ------------------------------------------------------------------------

  datatype Kind = CodeChecks | CeremoniesBegun | TokensClaimed | TokensIssued | PasswordChecks

  ghost predicate IsA(run: Run, i: nat, kind: Kind)
    requires run.Shaped() && i < |run.steps|
  {
    match kind
    case CodeChecks =>
      && Claims(run.states[i], run.steps[i]) && run.steps[i].op.login.CompleteMFA?
      && Enabled(run.states[i], run.states[i].pending.mfaTokens[Presented(run.steps[i]).value].user)
    case CeremoniesBegun =>
      run.steps[i].op.Sign? && run.steps[i].op.login.BeginPasskeyLogin? && run.outcomes[i].CeremonyBegun?
    case TokensClaimed => Claims(run.states[i], run.steps[i])
    case TokensIssued => run.outcomes[i].MfaIssued?
    case PasswordChecks => exists user :: ChecksPassword(run.env, run.states[i], run.steps[i], user)
  }

  /** How many of the first n steps are of a kind. */
  ghost function Count(run: Run, n: nat, kind: Kind): nat
    requires run.Shaped() && n <= |run.steps|
  {
    if n == 0 then 0 else Count(run, n - 1, kind) + if IsA(run, n - 1, kind) then 1 else 0
  }

  function Unused(tokens: map<string, MfaToken>): set<string> {
    set t | t in tokens && !tokens[t].used
  }

  lemma ClaimingShrinks(tokens: map<string, MfaToken>, t: string)
    requires t in tokens && !tokens[t].used
    ensures |Unused(tokens[t := tokens[t].(used := true)])| == |Unused(tokens)| - 1
  {
    assert Unused(tokens[t := tokens[t].(used := true)]) == Unused(tokens) - {t};
  }

  lemma IssuingGrows(tokens: map<string, MfaToken>, t: string, issued: MfaToken)
    requires t !in tokens && !issued.used
    ensures |Unused(tokens[t := issued])| == |Unused(tokens)| + 1
  {
    assert Unused(tokens[t := issued]) == Unused(tokens) + {t};
  }

  /** How many step-one tokens can still be claimed. */
  function Outstanding(db: Db): nat {
    |Unused(db.pending.mfaTokens)|
  }

  /** One step moves tokens in and out of use as it claims and issues them. */
  lemma OutstandingStep(run: Run, i: nat)
    requires run.Shaped() && i < |run.steps| && StepFacts(run, i)
    ensures Outstanding(run.states[i + 1]) + (if IsA(run, i, TokensClaimed) then 1 else 0)
         == Outstanding(run.states[i]) + (if IsA(run, i, TokensIssued) then 1 else 0)
  {
    var tokens := run.states[i].pending.mfaTokens;
    if Claims(run.states[i], run.steps[i]) {
      ClaimingShrinks(tokens, Presented(run.steps[i]).value);
    } else if run.outcomes[i].MfaIssued? {
      var user :| run.states[i + 1].pending.mfaTokens
               == tokens[run.outcomes[i].token := Issued(run.steps[i], user)];
      IssuingGrows(tokens, run.outcomes[i].token, Issued(run.steps[i], user));
    }
  }

  lemma {:induction false} ClaimsBalance(run: Run, n: nat)
    requires Facts(run) && n <= |run.steps|
    ensures Count(run, n, TokensClaimed) + Outstanding(run.states[n])
         == Count(run, n, TokensIssued) + Outstanding(run.states[0])
  {
    if n > 0 {
      ClaimsBalance(run, n - 1);
      OutstandingStep(run, n - 1);
    }
  }

  lemma {:induction false} UsesAreClaims(run: Run, n: nat)
    requires Facts(run) && n <= |run.steps|
    ensures Count(run, n, CodeChecks) + Count(run, n, CeremoniesBegun) <= Count(run, n, TokensClaimed)
  {
    if n > 0 {
      UsesAreClaims(run, n - 1);
      assert StepFacts(run, n - 1);
    }
  }

  lemma {:induction false} IssuesAreChecks(run: Run, n: nat)
    requires Facts(run) && n <= |run.steps|
    ensures Count(run, n, TokensIssued) <= Count(run, n, PasswordChecks)
  {
    if n > 0 {
      IssuesAreChecks(run, n - 1);
      assert StepFacts(run, n - 1);
    }
  }

  /** Every guess costs a password: over any run, codes checked plus ceremonies
      begun by second steps are at most the tokens claimed, those at most the
      tokens issued and the ones outstanding at the start, and tokens are issued
      at most once a password check. */
  lemma EveryGuessCostsAPasswordCheck(run: Run, n: nat)
    requires run.Valid() && Tidy(run.states[0]) && n <= |run.steps|
    ensures Count(run, n, CodeChecks) + Count(run, n, CeremoniesBegun) <= Count(run, n, TokensClaimed)
    ensures Count(run, n, TokensClaimed) <= Count(run, n, TokensIssued) + Outstanding(run.states[0])
    ensures Count(run, n, TokensIssued) <= Count(run, n, PasswordChecks)
  {
    FactsOf(run);
    ClaimsBalance(run, n);
    UsesAreClaims(run, n);
    IssuesAreChecks(run, n);
  }
}
