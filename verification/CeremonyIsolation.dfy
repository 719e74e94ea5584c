/** The four WebAuthn ceremonies never mix, in any interleaving for any number of
    accounts (webauthn.go:33-51, 108-119, 297-422, 533-708). */
module CeremonyIsolation {
  import opened Prelude
  import opened Roles
  import opened State
  import opened System
  import opened Minted
  import opened PendingSteps
  import opened Provenance

  /** The step finishes a ceremony successfully. */
  predicate Finishes(step: Step, outcome: Outcome) {
    Finishing(step).Some? && !outcome.Refused?
  }

  lemma FinishSpends(env: Env, before: Db, step: Step)
    requires Finishing(step).Some?
    ensures Finishes(step, Next(env, before, step).1) ==> Spends(before, step)
  {
  }

  lemma RunFinishSpends(run: Run, i: nat)
    requires run.Valid() && i < |run.steps| && Finishes(run.steps[i], run.outcomes[i])
    ensures Spends(run.states[i], run.steps[i])
  {
    assert run.Takes(i);
    FinishSpends(run.env, run.states[i], run.steps[i]);
  }

  /** Step b begins what step i finishes: under the same challenge, for the same
      purpose, within two minutes, and for the same caller where the ceremony
      belongs to one. */
  ghost predicate Matches(run: Run, b: nat, i: nat)
    requires run.Shaped() && b < i < |run.steps| && Finishing(run.steps[i]).Some?
  {
    var (c, purpose) := Finishing(run.steps[i]).value;
    && run.outcomes[b] == CeremonyBegun(c)
    && Beginning(run.states[b], run.steps[b]).Some?
    && Beginning(run.states[b], run.steps[b]).value.1 == purpose
    && run.steps[b].now <= run.steps[i].now < run.steps[b].now + 2 * 60_000_000_000
    && (Bound(purpose) ==> run.steps[b].actor.user == run.steps[i].actor.user)
  }

  /** Every finished ceremony was begun, for that purpose and that caller. */
  lemma FinishMatchesItsBeginning(run: Run, i: nat) returns (b: nat)
    requires run.Valid() && Tidy(run.states[0]) && run.states[0].pending.challenges == map[]
    requires i < |run.steps| && Finishes(run.steps[i], run.outcomes[i])
    ensures b < i && Matches(run, b, i)
  {
    FactsOf(run);
    RunFinishSpends(run, i);
    b := ChallengeOrigin(run, i, Finishing(run.steps[i]).value.0);
  }

  /** No challenge finishes twice, whatever the ceremonies. */
  lemma EachChallengeFinishesOnce(run: Run, i: nat, l: nat)
    requires run.Valid() && Tidy(run.states[0]) && i < |run.steps| && l < |run.steps|
    requires Finishes(run.steps[i], run.outcomes[i]) && Finishes(run.steps[l], run.outcomes[l])
    requires Finishing(run.steps[i]).value.0 == Finishing(run.steps[l]).value.0
    ensures i == l
  {
    FactsOf(run);
    RunFinishSpends(run, i);
    RunFinishSpends(run, l);
    SpentOnce(run, i, l, Finishing(run.steps[i]).value.0);
  }

  lemma SignInIsForItsAccount(run: Run, b: nat, i: nat)
    requires Facts(run) && b < i < |run.steps|
    requires SecondStep(run, i) && run.steps[i].op.login.CompletePasskeyLogin? && Matches(run, b, i)
    requires run.states[0].pending.challenges == map[]
    ensures IssuedFor(run, i, Beginning(run.states[b], run.steps[b]).value.0)
  {
    var c := run.steps[i].op.login.challenge;
    assert StepFacts(run, i);
    var b' := ChallengeOrigin(run, i, c);
    BegunOnce(run, b, b', c);
  }

  lemma BegunOnce(run: Run, b: nat, l: nat, c: string)
    requires Facts(run) && b < |run.steps| && l < |run.steps|
    requires run.outcomes[b] == CeremonyBegun(c) && run.outcomes[l] == CeremonyBegun(c)
    ensures b == l
  {
    var (x, y) := if b <= l then (b, l) else (l, b);
    if x < y {
      assert StepFacts(run, x) && StepFacts(run, y);
      MintedGrows(run, x + 1, y);
    }
  }

  /** A sign-in finished with a key is for the account whose step-one token began
      it, and for no account the finishing request names. */
  lemma SignInReturnsTheAccountItWasBegunFor(run: Run, i: nat) returns (b: nat)
    requires run.Valid() && Tidy(run.states[0]) && run.states[0].pending.challenges == map[]
    requires i < |run.steps| && SecondStep(run, i) && run.steps[i].op.login.CompletePasskeyLogin?
    ensures b < i && Matches(run, b, i)
    ensures Claims(run.states[b], run.steps[b])
    ensures IssuedFor(run, i, run.states[b].pending.mfaTokens[Presented(run.steps[b]).value].user)
  {
    FactsOf(run);
    b := FinishMatchesItsBeginning(run, i);
    SignInIsForItsAccount(run, b, i);
  }
}
