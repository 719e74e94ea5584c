/** Password policy (policy.go): the bounds an administrator may set, and the
    rules a password is held to. */
module PasswordPolicy {
  import opened Text
  import opened Dictionary

  const MAX_PASSWORD_LEN: nat := 256

  datatype Rule =
    | MinLength | MaxLength | Uppercase | Lowercase | Digit | Symbol | CommonWord | PersonalDetail

  datatype Policy = Policy(
    minLength: int,
    requireUpper: bool,
    requireLower: bool,
    requireDigit: bool,
    requireSymbol: bool,
    maxAgeDays: int,
    historyDepth: int,
    checkDictionary: bool)

  const DEFAULT_POLICY: Policy := Policy(12, true, true, true, true, 0, 5, true)

  /** What an administrator may save (policy.go:148-161). */
  predicate Savable(p: Policy) {
    && 12 <= p.minLength <= 64
    && 0 <= p.historyDepth <= 10
    && 0 <= p.maxAgeDays <= 3650
  }

  predicate IsSymbol(c: char) {
    !IsUpper(c) && !IsLower(c) && !IsDigit(c) && (IsFiller(c) || IsSpace(c))
  }

  /** Whether the password breaks the rule under this policy. */
  ghost predicate Breaks(p: Policy, words: set<string>, generic: set<string>, pw: string, details: seq<string>,
                         rule: Rule)
  {
    match rule
    case MinLength => |pw| < p.minLength
    case MaxLength => |pw| > MAX_PASSWORD_LEN
    case Uppercase => p.requireUpper && forall i :: 0 <= i < |pw| ==> !IsUpper(pw[i])
    case Lowercase => p.requireLower && forall i :: 0 <= i < |pw| ==> !IsLower(pw[i])
    case Digit => p.requireDigit && forall i :: 0 <= i < |pw| ==> !IsDigit(pw[i])
    case Symbol => p.requireSymbol && forall i :: 0 <= i < |pw| ==> !IsSymbol(pw[i])
    case CommonWord => p.checkDictionary && Listed(words, pw)
    case PersonalDetail => Personal(generic, pw, details)
  }

  /** Beyond 256 characters only the two length rules are looked at. */
  predicate Examined(pw: string, rule: Rule) {
    |pw| <= MAX_PASSWORD_LEN || rule == MinLength || rule == MaxLength
  }

  /** The order violations are reported in. */
  function Order(rule: Rule): nat {
    match rule
    case MinLength => 0
    case MaxLength => 1
    case Uppercase => 2
    case Lowercase => 3
    case Digit => 4
    case Symbol => 5
    case CommonWord => 6
    case PersonalDetail => 7
  }

  predicate InOrder(rules: seq<Rule>) {
    forall i, j :: 0 <= i < j < |rules| ==> Order(rules[i]) < Order(rules[j])
  }

  /** The rune scan (policy.go:191-207). */
  method Classes(pw: string) returns (upper: bool, lower: bool, digit: bool, symbol: bool)
    ensures upper <==> exists i :: 0 <= i < |pw| && IsUpper(pw[i])
    ensures lower <==> exists i :: 0 <= i < |pw| && IsLower(pw[i])
    ensures digit <==> exists i :: 0 <= i < |pw| && IsDigit(pw[i])
    ensures symbol <==> exists i :: 0 <= i < |pw| && IsSymbol(pw[i])
  {
    upper, lower, digit, symbol := false, false, false, false;
    for i := 0 to |pw|
      invariant upper <==> exists j :: 0 <= j < i && IsUpper(pw[j])
      invariant lower <==> exists j :: 0 <= j < i && IsLower(pw[j])
      invariant digit <==> exists j :: 0 <= j < i && IsDigit(pw[j])
      invariant symbol <==> exists j :: 0 <= j < i && IsSymbol(pw[j])
    {
      var r := pw[i];
      if IsUpper(r) {
        upper := true;
      } else if IsLower(r) {
        lower := true;
      } else if IsDigit(r) {
        digit := true;
      } else if IsFiller(r) || IsSpace(r) {
        symbol := true;
      }
    }
  }

  /** `vs` holds exactly those of the first n rules that are in `broken`. */
  ghost predicate Reported(broken: set<Rule>, vs: seq<Rule>, n: nat) {
    InOrder(vs) && forall rule :: rule in vs <==> Order(rule) < n && rule in broken
  }

  /** Appends one violation, when there is one. */
  method Report(ghost broken: set<Rule>, vs: seq<Rule>, rule: Rule, violated: bool) returns (vs': seq<Rule>)
    requires Reported(broken, vs, Order(rule))
    requires violated <==> rule in broken
    ensures Reported(broken, vs', Order(rule) + 1)
  {
    vs' := if violated then vs + [rule] else vs;
    forall r
      ensures r in vs' <==> Order(r) < Order(rule) + 1 && r in broken
    {
      assert Order(r) == Order(rule) <==> r == rule;
      assert r in vs' <==> r in vs || (violated && r == rule);
    }
  }

  /** The two length rules; true when the rest is not to be looked at. */
  method CheckLength(p: Policy, pw: string, ghost broken: set<Rule>) returns (vs: seq<Rule>, tooLong: bool)
    requires MinLength in broken <==> |pw| < p.minLength
    requires MaxLength in broken <==> |pw| > MAX_PASSWORD_LEN
    ensures tooLong <==> |pw| > MAX_PASSWORD_LEN
    ensures Reported(broken, vs, 2)
  {
    vs := Report(broken, [], MinLength, |pw| < p.minLength);
    tooLong := |pw| > MAX_PASSWORD_LEN;
    vs := Report(broken, vs, MaxLength, tooLong);
  }

  /** The four composition rules. */
  method CheckClasses(p: Policy, pw: string, ghost broken: set<Rule>, before: seq<Rule>) returns (vs: seq<Rule>)
    requires Uppercase in broken <==> p.requireUpper && forall i :: 0 <= i < |pw| ==> !IsUpper(pw[i])
    requires Lowercase in broken <==> p.requireLower && forall i :: 0 <= i < |pw| ==> !IsLower(pw[i])
    requires Digit in broken <==> p.requireDigit && forall i :: 0 <= i < |pw| ==> !IsDigit(pw[i])
    requires Symbol in broken <==> p.requireSymbol && forall i :: 0 <= i < |pw| ==> !IsSymbol(pw[i])
    requires Reported(broken, before, 2)
    ensures Reported(broken, vs, 6)
  {
    var upper, lower, digit, symbol := Classes(pw);
    vs := Report(broken, before, Uppercase, p.requireUpper && !upper);
    vs := Report(broken, vs, Lowercase, p.requireLower && !lower);
    vs := Report(broken, vs, Digit, p.requireDigit && !digit);
    vs := Report(broken, vs, Symbol, p.requireSymbol && !symbol);
  }

  /** The dictionary and the account's own details. */
  method CheckWords(p: Policy, words: set<string>, generic: set<string>, pw: string, details: seq<string>,
                    ghost broken: set<Rule>, before: seq<Rule>)
    returns (vs: seq<Rule>)
    requires CommonWord in broken <==> p.checkDictionary && Listed(words, pw)
    requires PersonalDetail in broken <==> Personal(generic, pw, details)
    requires Reported(broken, before, 6)
    ensures Reported(broken, vs, 8)
  {
    var common := false;
    if p.checkDictionary {
      common := InCommonPasswordList(words, pw);
    }
    vs := Report(broken, before, CommonWord, common);
    var personal := ContainsPersonalDetail(generic, pw, details);
    vs := Report(broken, vs, PersonalDetail, personal);
  }

  ghost function Broken(p: Policy, words: set<string>, generic: set<string>, pw: string, details: seq<string>):
    set<Rule>
  {
    set rule: Rule | Breaks(p, words, generic, pw, details, rule)
  }

  /** The violations of a password: every examined rule it breaks, each once, in
      the fixed order. The empty list is the nil error. */
  method Check(p: Policy, words: set<string>, generic: set<string>, pw: string, details: seq<string>)
    returns (vs: seq<Rule>)
    ensures forall rule :: rule in vs <==> Examined(pw, rule) && Breaks(p, words, generic, pw, details, rule)
    ensures InOrder(vs)
  {
    ghost var broken := Broken(p, words, generic, pw, details);
    var tooLong;
    vs, tooLong := CheckLength(p, pw, broken);
    if tooLong {
      return;
    }
    vs := CheckClasses(p, pw, broken, vs);
    vs := CheckWords(p, words, generic, pw, details, broken, vs);
  }

  method Validate(p: Policy) returns (ok: bool)
    ensures ok <==> Savable(p)
  {
    if p.minLength < 12 {
      return false;
    }
    if p.minLength > 64 {
      return false;
    }
    if p.historyDepth < 0 || p.historyDepth > 10 {
      return false;
    }
    if p.maxAgeDays < 0 || p.maxAgeDays > 3650 {
      return false;
    }
    return true;
  }

  /** A password is accepted when no examined rule is broken. */
  ghost predicate Accepts(p: Policy, words: set<string>, generic: set<string>, pw: string, details: seq<string>) {
    forall rule :: Examined(pw, rule) ==> !Breaks(p, words, generic, pw, details, rule)
  }

  /** Whatever a savable policy accepts, the shipped floor holds: twelve to 256
      characters, and nothing of the account's own details in it. */
  lemma SavablePoliciesKeepTheFloor(p: Policy, words: set<string>, generic: set<string>, pw: string,
                                    details: seq<string>)
    requires Savable(p) && Accepts(p, words, generic, pw, details)
    ensures 12 <= |pw| <= 256
    ensures !Personal(generic, pw, details)
    ensures p.checkDictionary ==> !Listed(words, pw)
  {
    assert Examined(pw, MinLength) && !Breaks(p, words, generic, pw, details, MinLength);
    assert Examined(pw, MaxLength) && !Breaks(p, words, generic, pw, details, MaxLength);
    assert Examined(pw, PersonalDetail) && !Breaks(p, words, generic, pw, details, PersonalDetail);
    assert Examined(pw, CommonWord) && !Breaks(p, words, generic, pw, details, CommonWord);
  }

  /** Some character of the password lies in this range. */
  predicate Holds(pw: string, lo: char, hi: char) {
    exists i :: 0 <= i < |pw| && lo <= pw[i] <= hi
  }

  /** In ASCII: punctuation, or a blank. */
  predicate IsSign(c: char) {
    || '!' <= c <= '/' || ':' <= c <= '@' || '[' <= c <= '`' || '{' <= c <= '~'
    || c == ' ' || '\t' <= c <= '\r'
  }

  /** The check on plain ASCII text, rule by rule: length in range, each required
      class present, and neither a listed word nor a detail of the account. */
  lemma AcceptedExactly(p: Policy, words: set<string>, generic: set<string>, pw: string, details: seq<string>)
    requires forall i :: 0 <= i < |pw| ==> pw[i] < '\U{80}'
    ensures Accepts(p, words, generic, pw, details)
       <==> && p.minLength <= |pw| <= 256
            && (p.requireUpper ==> Holds(pw, 'A', 'Z'))
            && (p.requireLower ==> Holds(pw, 'a', 'z'))
            && (p.requireDigit ==> Holds(pw, '0', '9'))
            && (p.requireSymbol ==> exists i :: 0 <= i < |pw| && IsSign(pw[i]))
            && (p.checkDictionary ==> !Listed(words, pw))
            && !Personal(generic, pw, details)
  {
    forall i | 0 <= i < |pw|
      ensures IsSymbol(pw[i]) <==> IsSign(pw[i])
    {
    }
    assert Examined(pw, MinLength) && Examined(pw, MaxLength);
    if |pw| <= 256 {
      assert Examined(pw, Uppercase) && Examined(pw, Lowercase) && Examined(pw, Digit) && Examined(pw, Symbol);
      assert Examined(pw, CommonWord) && Examined(pw, PersonalDetail);
    }
  }

  /** No policy, however edited, accepts a password of at most 256 characters
      holding a fragment of the account's details in any letter case. */
  lemma OwnDetailsNeverAccepted(p: Policy, words: set<string>, generic: set<string>, pw: string,
                                details: seq<string>, k: nat, frag: string, at: nat)
    requires |pw| <= 256
    requires k < |details| && IsFragment(generic, details[k], frag)
    requires at + |frag| <= |pw| && Lower(pw[at..at + |frag|]) == frag
    ensures !Accepts(p, words, generic, pw, details)
  {
    FragmentAlwaysFound(generic, pw, details, k, frag, at);
    assert Examined(pw, PersonalDetail) && Breaks(p, words, generic, pw, details, PersonalDetail);
  }
}
