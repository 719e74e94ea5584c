/** Time-based one-time codes (totp.go), with the HMAC itself left abstract. */
module Totp {
  import opened Prelude
  import Text

  const PERIOD: int := 30
  const SKEW: nat := 1

  /** What hotp.ValidateCustom says about one code at one counter. */
  datatype HotpAnswer = Match | NoMatch | Malformed

  /** HOTP over SHA-1: code, counter, secret. Any function will do. */
  type Hotp = (string, nat, string) -> HotpAnswer

  /** Go's int64 division truncates toward zero; t.Unix() rounds down. */
  function TotpStep(t: Time): int {
    var unix := t / SECOND;
    if unix >= 0 then unix / PERIOD else -((-unix) / PERIOD)
  }

  lemma TotpStepMonotone(t1: Time, t2: Time)
    requires t1 <= t2
    ensures TotpStep(t1) <= TotpStep(t2)
  {
    assert t1 / SECOND <= t2 / SECOND;
  }

  /** The three ways ValidateTOTPCode returns: an accepted step, a step already
      used, or no valid code. */
  datatype Verdict = Accepted(step: int) | Replayed(step: int) | Invalid

  /** How far down the candidate list a step stands: the current step first,
      then one forward, one back, two forward, and so on. */
  function Rank(current: int, step: int): nat {
    if step > current then 2 * (step - current) - 1 else 2 * (current - step)
  }

  /** The step standing at a given place of that list. */
  function AtRank(current: int, rank: nat): int {
    if rank % 2 == 1 then current + (rank + 1) / 2 else current - rank / 2
  }

  lemma RankInverse(current: int, step: int, rank: nat)
    ensures AtRank(current, Rank(current, step)) == step
    ensures Rank(current, AtRank(current, rank)) == rank
  {
  }

  /** Builds the candidate list: exactly the 2k+1 steps within k of the current
      one, each once. */
  method Candidates(current: int, k: nat) returns (out: seq<int>)
    ensures |out| == 2 * k + 1
    ensures forall i :: 0 <= i < |out| ==> out[i] == AtRank(current, i)
    ensures forall i, j :: 0 <= i < j < |out| ==> out[i] != out[j]
    ensures forall s :: s in out <==> current - k <= s <= current + k
  {
    out := [current];
    for i := 1 to k + 1
      invariant |out| == 2 * i - 1
      invariant forall j :: 0 <= j < |out| ==> out[j] == AtRank(current, j)
    {
      out := out + [current + i, current - i];
    }
    forall i, j | 0 <= i < j < |out|
      ensures out[i] != out[j]
    {
      RankInverse(current, current, i);
      RankInverse(current, current, j);
    }
    forall s
      ensures s in out <==> current - k <= s <= current + k
    {
      RankInverse(current, s, 0);
      if current - k <= s <= current + k {
        assert out[Rank(current, s)] == s;
      }
    }
  }

  /** The answer the code gets at a step; negative steps are passed over. */
  function AnswerAt(hotp: Hotp, secret: string, code: string, step: int): HotpAnswer {
    if step < 0 then NoMatch else hotp(code, step, secret)
  }

  /** The verdict as a function: look down the list from place `rank`. */
  function Scan(hotp: Hotp, secret: string, code: string, current: int, k: nat, last: int, rank: nat): Verdict
    requires rank <= 2 * k + 1
    decreases 2 * k + 1 - rank
  {
    if rank == 2 * k + 1 then Invalid
    else
      var step := AtRank(current, rank);
      match AnswerAt(hotp, secret, code, step)
      case Malformed => Invalid
      case NoMatch => Scan(hotp, secret, code, current, k, last, rank + 1)
      case Match => if step <= last then Replayed(step) else Accepted(step)
  }

  function Validate(hotp: Hotp, secret: string, code: string, now: Time, last: int, k: nat): Verdict {
    if Text.Trim(code) == "" || secret == "" then Invalid
    else Scan(hotp, secret, Text.Trim(code), TotpStep(now), k, last, 0)
  }

  method ValidateTOTPCode(hotp: Hotp, secret: string, code: string, now: Time, last: int, k: nat)
    returns (v: Verdict)
    ensures v == Validate(hotp, secret, code, now, last, k)
  {
    var trimmed := Text.Trim(code);
    if trimmed == "" || secret == "" {
      return Invalid;
    }
    var current := TotpStep(now);
    var candidates := Candidates(current, k);
    for i := 0 to |candidates|
      invariant Scan(hotp, secret, trimmed, current, k, last, 0)
             == Scan(hotp, secret, trimmed, current, k, last, i)
    {
      var step := candidates[i];
      if step >= 0 {
        match hotp(trimmed, step, secret) {
          case Malformed => return Invalid;
          case NoMatch =>
          case Match =>
            if step <= last {
              return Replayed(step);
            }
            return Accepted(step);
        }
      }
    }
    return Invalid;
  }

  // ---- What the verdict means ----------------------------------------------------

  /** `step` is where the search stops: it gets `answer`, and every step of the
      window standing before it gets NoMatch. */
  ghost predicate StopsAt(hotp: Hotp, secret: string, code: string, current: int, k: nat, step: int) {
    && current - k <= step <= current + k
    && AnswerAt(hotp, secret, code, step) != NoMatch
    && forall s :: current - k <= s <= current + k && Rank(current, s) < Rank(current, step) ==>
         AnswerAt(hotp, secret, code, s) == NoMatch
  }

  /** The verdict, told without a search: it is decided by the non-negative step
      closest to the current one, ties going forward, at which the verifier has
      anything to say; it is acceptance exactly when that step matches and lies
      beyond the last one used. */
  ghost predicate Meaning(hotp: Hotp, secret: string, code: string, current: int, k: nat, last: int, v: Verdict) {
    match v
    case Accepted(step) =>
      && StopsAt(hotp, secret, code, current, k, step)
      && 0 <= step && hotp(code, step, secret) == Match && last < step
    case Replayed(step) =>
      && StopsAt(hotp, secret, code, current, k, step)
      && 0 <= step && hotp(code, step, secret) == Match && step <= last
    case Invalid =>
      forall step :: StopsAt(hotp, secret, code, current, k, step) ==>
        AnswerAt(hotp, secret, code, step) == Malformed
  }

  lemma {:induction false} ScanMeans(
    hotp: Hotp, secret: string, code: string, current: int, k: nat, last: int, rank: nat)
    requires rank <= 2 * k + 1
    requires forall s :: current - k <= s <= current + k && Rank(current, s) < rank ==>
               AnswerAt(hotp, secret, code, s) == NoMatch
    ensures Meaning(hotp, secret, code, current, k, last, Scan(hotp, secret, code, current, k, last, rank))
    decreases 2 * k + 1 - rank
  {
    if rank == 2 * k + 1 {
      assert forall s :: current - k <= s <= current + k ==> Rank(current, s) < rank;
    } else {
      var step := AtRank(current, rank);
      RankInverse(current, step, rank);
      forall s | current - k <= s <= current + k && Rank(current, s) == rank
        ensures s == step
      {
        RankInverse(current, s, rank);
      }
      match AnswerAt(hotp, secret, code, step) {
        case NoMatch => ScanMeans(hotp, secret, code, current, k, last, rank + 1);
        case Malformed =>
          forall s | StopsAt(hotp, secret, code, current, k, s)
            ensures s == step
          {
            RankInverse(current, s, Rank(current, s));
            assert Rank(current, s) >= rank;
          }
        case Match =>
      }
    }
  }

  /** At most one verdict has the meaning, so the meaning pins the code down. */
  lemma MeaningIsUnique(
    hotp: Hotp, secret: string, code: string, current: int, k: nat, last: int, v: Verdict, w: Verdict)
    requires Meaning(hotp, secret, code, current, k, last, v)
    requires Meaning(hotp, secret, code, current, k, last, w)
    ensures v == w
  {
    if !v.Invalid? && !w.Invalid? {
      RankInverse(current, v.step, 0);
      RankInverse(current, w.step, 0);
      assert Rank(current, v.step) == Rank(current, w.step);
    }
  }

  /** For every skew, code, secret and instant: the code returned by
      ValidateTOTPCode is the one its specification names. */
  lemma ValidateRefinesItsMeaning(hotp: Hotp, secret: string, code: string, now: Time, last: int, k: nat, v: Verdict)
    requires Text.Trim(code) != "" && secret != ""
    ensures v == Validate(hotp, secret, code, now, last, k) <==>
            Meaning(hotp, secret, Text.Trim(code), TotpStep(now), k, last, v)
  {
    var w := Validate(hotp, secret, code, now, last, k);
    ScanMeans(hotp, secret, Text.Trim(code), TotpStep(now), k, last, 0);
    if Meaning(hotp, secret, Text.Trim(code), TotpStep(now), k, last, v) {
      MeaningIsUnique(hotp, secret, Text.Trim(code), TotpStep(now), k, last, v, w);
    }
  }

  /** An accepted step is fresh and within the skew of the present. */
  lemma AcceptedIsFreshAndNear(hotp: Hotp, secret: string, code: string, now: Time, last: int, k: nat)
    ensures var v := Validate(hotp, secret, code, now, last, k);
            v.Accepted? ==> last < v.step && TotpStep(now) - k <= v.step <= TotpStep(now) + k && 0 <= v.step
  {
    if Text.Trim(code) != "" && secret != "" {
      ScanMeans(hotp, secret, Text.Trim(code), TotpStep(now), k, last, 0);
    }
  }

  // ---- Which codes an authenticator's user can type ----------------------------------------

  /** Steps are half-minutes: step s begins 30 * s seconds after the epoch. */
  lemma StepIsTheHalfMinute(now: Time, s: nat)
    requires s * 30_000_000_000 <= now < (s + 1) * 30_000_000_000
    ensures TotpStep(now) == s
  {
    var unix := now / SECOND;
    assert 30 * s <= unix < 30 * (s + 1);
  }

  /** Step t decides about a code typed during step s: t is s, or s + 1 if the
      verifier says nothing at s, or s - 1 if it says nothing at both. */
  predicate Decides(hotp: Hotp, secret: string, code: string, s: nat, t: int) {
    || t == s
    || (t == s + 1 && hotp(code, s, secret) == NoMatch)
    || (t == s - 1 && t >= 0 && hotp(code, s, secret) == NoMatch && hotp(code, s + 1, secret) == NoMatch)
  }

  lemma DecidingSteps(hotp: Hotp, secret: string, code: string, s: nat, t: int)
    ensures Decides(hotp, secret, code, s, t) && t >= 0 && hotp(code, t, secret) != NoMatch
       <==> StopsAt(hotp, secret, code, s, SKEW, t)
  {
    if StopsAt(hotp, secret, code, s, SKEW, t) {
      assert Rank(s, s) == 0 && Rank(s, s + 1) == 1 && Rank(s, s - 1) == 2;
    }
  }

  /** The shipped check, exactly. A code typed during the half-minute s is accepted
      for step t if and only if t decides, the verifier matches it there, and t was
      not used; it is reported as used when only the last fails. */
  lemma AcceptedExactly(hotp: Hotp, secret: string, code: string, now: Time, s: nat, last: int, t: int)
    requires s * 30_000_000_000 <= now < (s + 1) * 30_000_000_000
    requires secret != "" && Text.Trim(code) != ""
    ensures var v, matched := Validate(hotp, secret, code, now, last, SKEW),
                              Decides(hotp, secret, Text.Trim(code), s, t) && t >= 0
                              && hotp(Text.Trim(code), t, secret) == Match;
            && (v == Accepted(t) <==> matched && t > last)
            && (v == Replayed(t) <==> matched && t <= last)
  {
    StepIsTheHalfMinute(now, s);
    DecidingSteps(hotp, secret, Text.Trim(code), s, t);
    ValidateRefinesItsMeaning(hotp, secret, code, now, last, SKEW, Accepted(t));
    ValidateRefinesItsMeaning(hotp, secret, code, now, last, SKEW, Replayed(t));
  }

  /** The code of this half-minute is accepted once; the one before and the one
      after are too, where the verifier takes them for no nearer one; codes of any
      other half-minute are not. */
  lemma NearbyCodesAreAccepted(hotp: Hotp, secret: string, code: string, now: Time, s: nat, last: int)
    requires s * 30_000_000_000 <= now < (s + 1) * 30_000_000_000
    requires secret != "" && Text.Trim(code) != ""
    ensures hotp(Text.Trim(code), s, secret) == Match && s > last ==>
              Validate(hotp, secret, code, now, last, SKEW) == Accepted(s)
    ensures hotp(Text.Trim(code), s, secret) == NoMatch && hotp(Text.Trim(code), s + 1, secret) == Match
            && s + 1 > last ==>
              Validate(hotp, secret, code, now, last, SKEW) == Accepted(s + 1)
    ensures s > 0 && hotp(Text.Trim(code), s, secret) == NoMatch && hotp(Text.Trim(code), s + 1, secret) == NoMatch
            && hotp(Text.Trim(code), s - 1, secret) == Match && s - 1 > last ==>
              Validate(hotp, secret, code, now, last, SKEW) == Accepted(s - 1)
    ensures (forall t: nat :: s - 1 <= t <= s + 1 ==> hotp(Text.Trim(code), t, secret) == NoMatch) ==>
              Validate(hotp, secret, code, now, last, SKEW) == Invalid
  {
    AcceptedExactly(hotp, secret, code, now, s, last, s);
    AcceptedExactly(hotp, secret, code, now, s, last, s + 1);
    AcceptedExactly(hotp, secret, code, now, s, last, s - 1);
    var v := Validate(hotp, secret, code, now, last, SKEW);
    if !v.Invalid? {
      AcceptedExactly(hotp, secret, code, now, s, last, v.step);
    }
  }
}
