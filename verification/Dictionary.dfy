/** The password normaliser and the two checks built on it (dictionary.go). The
    embedded word list is an arbitrary set of words. */
module Dictionary {
  import opened Text
  import opened Glyphs

  /** unicode.IsDigit, IsPunct or IsSymbol of one byte read as a Latin-1 rune. */
  predicate IsFiller(c: char) {
    || '!' <= c <= '@' || '[' <= c <= '`' || '{' <= c <= '~'
    || '\U{A1}' <= c <= '\U{A9}' || '\U{AB}' <= c <= '\U{AC}'
    || '\U{AE}' <= c <= '\U{B1}' || c == '\U{B4}' || '\U{B6}' <= c <= '\U{B8}'
    || c == '\U{BB}' || c == '\U{BF}' || c == '\U{D7}' || c == '\U{F7}'
  }

  /** Where the trailing run of filler that ends at `end` begins. */
  function CoreEnd(s: string, end: nat): (r: nat)
    requires end <= |s|
    ensures r <= end
    ensures r > 0 ==> !IsFiller(s[r - 1])
    ensures forall i :: r <= i < end ==> IsFiller(s[i])
  {
    if end > 0 && IsFiller(s[end - 1]) then CoreEnd(s, end - 1) else end
  }

  /** The text without its trailing filler, unless that would leave nothing. */
  function StripFiller(s: string): string {
    if CoreEnd(s, |s|) == 0 then s else s[..CoreEnd(s, |s|)]
  }

  method StripTrailingFiller(s: string) returns (r: string)
    ensures r == StripFiller(s)
  {
    var end := |s|;
    while end > 0
      invariant 0 <= end <= |s| && CoreEnd(s, end) == CoreEnd(s, |s|)
    {
      if !IsFiller(s[end - 1]) {
        break;
      }
      end := end - 1;
    }
    if end == 0 {
      return s;
    }
    return s[..end];
  }

  function Lowered(password: string): string {
    Lower(Trim(password))
  }

  /** The two texts the product starts from. */
  predicate IsBase(password: string, base: string) {
    base == Lowered(password) || base == StripFiller(Lowered(password))
  }

  predicate Yields(reading: string, x: string) {
    x == reading || x == StripFiller(reading)
  }

  /** What one base contributes: itself, or one reading of its substituted text,
      stripped or not. */
  ghost predicate FormOfBase(base: string, x: string) {
    x == base
    || exists r :: IsReading(Replace(base), r) && Yields(r, x)
  }

  /** A form of the password that is looked up: an optional strip, one reading
      for every glyph, an optional strip. */
  ghost predicate IsForm(password: string, x: string) {
    x != "" && Lowered(password) != "" && exists base :: IsBase(password, base) && FormOfBase(base, x)
  }

  method Add(seen: set<string>, forms: seq<string>, s: string)
    returns (seen': set<string>, forms': seq<string>)
    requires Distinct(forms) && forall x :: x in forms <==> x in seen
    ensures Distinct(forms') && forall x :: x in forms' <==> x in seen'
    ensures seen' == if s == "" then seen else seen + {s}
    ensures |forms'| <= |forms| + 1
  {
    seen', forms' := seen, forms;
    if s == "" || s in seen {
      return;
    }
    seen' := seen + {s};
    forms' := forms + [s];
  }

  /** Adds what one base contributes. */
  method AddBase(seen: set<string>, forms: seq<string>, base: string)
    returns (seen': set<string>, forms': seq<string>)
    requires Distinct(forms) && forall x :: x in forms <==> x in seen
    ensures Distinct(forms') && forall x :: x in forms' <==> x in seen'
    ensures forall x :: x in seen' <==> x in seen || (x != "" && FormOfBase(base, x))
    ensures |forms'| <= |forms| + 129
  {
    seen', forms' := Add(seen, forms, base);
    var readings := ExpandAmbiguous(Replace(base));
    AtMost64(AmbiguousCount(Replace(base)));
    for i := 0 to |readings|
      invariant Distinct(forms') && forall x :: x in forms' <==> x in seen'
      invariant forall x :: x in seen' <==> x in seen || (x != "" && (x == base || FromFirst(readings, i, x)))
      invariant |forms'| <= |forms| + 1 + 2 * i
    {
      seen', forms' := Add(seen', forms', readings[i]);
      var stripped := StripTrailingFiller(readings[i]);
      seen', forms' := Add(seen', forms', stripped);
      FromOneMore(readings, i);
    }
    forall x
      ensures x == base || FromFirst(readings, |readings|, x) <==> FormOfBase(base, x)
    {
      if FormOfBase(base, x) && x != base {
        var r :| IsReading(Replace(base), r) && Yields(r, x);
        var j :| 0 <= j < |readings| && readings[j] == r;
        assert Yields(readings[j], x);
      }
      if FromFirst(readings, |readings|, x) {
        var j :| 0 <= j < |readings| && Yields(readings[j], x);
        assert readings[j] in readings;
      }
    }
  }

  /** x is one of the first n readings, stripped or not. */
  ghost predicate FromFirst(readings: seq<string>, n: nat, x: string)
    requires n <= |readings|
  {
    exists j :: 0 <= j < n && Yields(readings[j], x)
  }

  lemma FromOneMore(readings: seq<string>, n: nat)
    requires n < |readings|
    ensures forall x :: FromFirst(readings, n + 1, x) <==>
              FromFirst(readings, n, x) || Yields(readings[n], x)
  {
    forall x | FromFirst(readings, n, x) || Yields(readings[n], x)
      ensures FromFirst(readings, n + 1, x)
    {
      if Yields(readings[n], x) {
      } else {
        var j :| 0 <= j < n && Yields(readings[j], x);
      }
    }
  }

  lemma AtMost64(k: nat)
    ensures k <= 6 ==> Pow2(k) <= 64
  {
    if k <= 6 {
      assert Pow2(0) == 1 && Pow2(1) == 2 && Pow2(2) == 4 && Pow2(3) == 8;
      assert Pow2(4) == 16 && Pow2(5) == 32 && Pow2(6) == 64;
    }
  }

  /** All forms of a password, each once: at most 2 * (1 + 2 * 64) of them. */
  method Normalizations(password: string) returns (forms: seq<string>)
    ensures forall x :: x in forms <==> IsForm(password, x)
    ensures Distinct(forms) && "" !in forms
    ensures |forms| <= 258
  {
    var lower := Lowered(password);
    if lower == "" {
      return [];
    }
    var seen: set<string> := {};
    forms := [];
    seen, forms := AddBase(seen, forms, lower);
    var stripped := StripTrailingFiller(lower);
    seen, forms := AddBase(seen, forms, stripped);
  }

  ghost predicate Listed(words: set<string>, password: string) {
    exists x :: x in words && IsForm(password, x)
  }

  method InCommonPasswordList(words: set<string>, password: string) returns (found: bool)
    ensures found <==> Listed(words, password)
  {
    var forms := Normalizations(password);
    for i := 0 to |forms|
      invariant forall j :: 0 <= j < i ==> forms[j] !in words
    {
      if forms[i] in words {
        assert IsForm(password, forms[i]);
        return true;
      }
    }
    return false;
  }

  // ---- Personal details ------------------------------------------------------------

  /** s[i..j] is a maximal run of letters and digits. */
  ghost predicate IsWord(s: string, i: int, j: int) {
    && 0 <= i < j <= |s|
    && (forall k :: i <= k < j ==> IsAlnum(s[k]))
    && (i > 0 ==> !IsAlnum(s[i - 1]))
    && (j < |s| ==> !IsAlnum(s[j]))
  }

  ghost predicate IsWordOf(s: string, w: string) {
    exists i, j :: IsWord(s, i, j) && w == s[i..j]
  }

  /** A piece of an identity detail worth matching: a word of at least four
      characters that is not generic. */
  ghost predicate IsFragment(generic: set<string>, detail: string, frag: string) {
    |frag| >= 4 && frag !in generic && IsWordOf(Lowered(detail), frag)
  }

  /** Every word of `s` lying before `start` has been collected. */
  ghost predicate Collected(s: string, start: int, words: seq<string>) {
    && (forall w :: w in words ==> IsWordOf(s, w))
    && (forall i, j :: IsWord(s, i, j) && i < start ==> j < start && s[i..j] in words)
  }

  lemma CollectOne(s: string, start: int, end: int, words: seq<string>)
    requires Collected(s, start, words)
    requires 0 <= start <= end <= |s|
    requires forall k :: start <= k < end ==> IsAlnum(s[k])
    requires start > 0 ==> !IsAlnum(s[start - 1])
    requires end < |s| ==> !IsAlnum(s[end])
    ensures Collected(s, end + 1, if start < end then words + [s[start..end]] else words)
  {
    var more := if start < end then words + [s[start..end]] else words;
    if start < end {
      assert IsWord(s, start, end);
      assert more[|words|] == s[start..end];
    }
    forall i, j | IsWord(s, i, j) && i < end + 1
      ensures j < end + 1 && s[i..j] in more
    {
      if i < start {
        assert s[i..j] in words;
      } else {
        assert i < end && i == start && j == end;
      }
    }
  }

  /** strings.FieldsFunc on everything that is not a letter or a digit. */
  method Words(s: string) returns (words: seq<string>)
    ensures forall w :: w in words <==> IsWordOf(s, w)
  {
    words := [];
    var start := 0;
    for i := 0 to |s|
      invariant 0 <= start <= i
      invariant forall k :: start <= k < i ==> IsAlnum(s[k])
      invariant start > 0 ==> !IsAlnum(s[start - 1])
      invariant Collected(s, start, words)
    {
      if !IsAlnum(s[i]) {
        CollectOne(s, start, i, words);
        if start < i {
          words := words + [s[start..i]];
        }
        start := i + 1;
      }
    }
    CollectOne(s, start, |s|, words);
    if start < |s| {
      words := words + [s[start..|s|]];
    }
  }

  method PersonalFragments(generic: set<string>, detail: string) returns (out: seq<string>)
    ensures forall x :: x in out <==> IsFragment(generic, detail, x)
  {
    var lowered := Lowered(detail);
    if lowered == "" {
      return [];
    }
    var parts := Words(lowered);
    out := [];
    for i := 0 to |parts|
      invariant forall x :: x in out ==> IsFragment(generic, detail, x)
      invariant forall k :: 0 <= k < i && |parts[k]| >= 4 && parts[k] !in generic ==> parts[k] in out
    {
      var p := parts[i];
      if |p| >= 4 && p !in generic {
        out := out + [p];
      }
    }
  }

  ghost predicate HoldsDetail(generic: set<string>, password: string, detail: string) {
    exists frag, form :: IsFragment(generic, detail, frag) && IsForm(password, form) && Contains(form, frag)
  }

  ghost predicate Personal(generic: set<string>, password: string, details: seq<string>) {
    exists k :: 0 <= k < |details| && HoldsDetail(generic, password, details[k])
  }

  method HasPart(s: string, part: string) returns (found: bool)
    ensures found <==> Contains(s, part)
  {
    if |part| > |s| {
      return false;
    }
    for k := 0 to |s| - |part| + 1
      invariant forall j: nat :: j < k ==> !OccursAt(s, part, j)
    {
      if s[k..k + |part|] == part {
        assert OccursAt(s, part, k);
        return true;
      }
    }
    return false;
  }

  /** Whether one of the forms holds one of the fragments: the two inner loops. */
  method AnyFormHolds(forms: seq<string>, frags: seq<string>) returns (found: bool)
    ensures found <==> exists frag, form :: frag in frags && form in forms && Contains(form, frag)
  {
    for a := 0 to |frags|
      invariant forall frag, form :: frag in frags[..a] && form in forms ==> !Contains(form, frag)
    {
      for c := 0 to |forms|
        invariant forall form :: form in forms[..c] ==> !Contains(form, frags[a])
      {
        var hit := HasPart(forms[c], frags[a]);
        if hit {
          return true;
        }
      }
      assert forms[..|forms|] == forms;
    }
    assert frags[..|frags|] == frags;
    return false;
  }

  method ContainsPersonalDetail(generic: set<string>, password: string, details: seq<string>)
    returns (found: bool)
    ensures found <==> Personal(generic, password, details)
  {
    var forms := Normalizations(password);
    for k := 0 to |details|
      invariant forall m :: 0 <= m < k ==> !HoldsDetail(generic, password, details[m])
    {
      var frags := PersonalFragments(generic, details[k]);
      var hit := AnyFormHolds(forms, frags);
      if hit {
        return true;
      }
    }
    return false;
  }

  /** A password holding a fragment of a detail, in any letter case, is always
      refused for it. */
  lemma FragmentAlwaysFound(generic: set<string>, password: string, details: seq<string>, k: nat,
                            frag: string, at: nat)
    requires k < |details| && IsFragment(generic, details[k], frag)
    requires at + |frag| <= |password| && Lower(password[at..at + |frag|]) == frag
    ensures Personal(generic, password, details)
  {
    FragmentHasNoSpace(generic, details[k], frag);
    forall m | at <= m < at + |frag|
      ensures !IsSpace(password[m])
    {
      assert LowerChar(password[at..at + |frag|][m - at]) == frag[m - at];
    }
    var place := TrimKeeps(password, at, at + |frag|);
    var lower := Lowered(password);
    assert lower[place..place + |frag|] == Lower(Trim(password)[place..place + |frag|]);
    assert OccursAt(lower, frag, place);
    assert IsBase(password, lower) && FormOfBase(lower, lower);
    assert IsForm(password, lower);
    assert HoldsDetail(generic, password, details[k]);
  }

  /** A run of small letters and digits with neither next to it is a fragment exactly
      when there are four or more of them and it is not generic: "jane" and
      "example" of "jane.doe@example.org", but not "doe". */
  lemma DelimitedRunIsAFragment(generic: set<string>, detail: string, i: nat, j: nat)
    requires i < j <= |detail|
    requires forall k :: 0 <= k < |detail| ==> !('A' <= detail[k] <= 'Z')
    requires detail != "" && !IsSpace(detail[0]) && !IsSpace(detail[|detail| - 1])
    requires forall k :: i <= k < j ==> 'a' <= detail[k] <= 'z' || '0' <= detail[k] <= '9'
    requires i > 0 ==> !('a' <= detail[i - 1] <= 'z' || '0' <= detail[i - 1] <= '9')
    requires j < |detail| ==> !('a' <= detail[j] <= 'z' || '0' <= detail[j] <= '9')
    ensures IsFragment(generic, detail, detail[i..j]) <==> j >= i + 4 && detail[i..j] !in generic
  {
    TrimIsIdentity(detail);
    assert Lowered(detail) == detail;
    assert IsWord(detail, i, j);
  }

  lemma FragmentHasNoSpace(generic: set<string>, detail: string, frag: string)
    requires IsFragment(generic, detail, frag)
    ensures forall i :: 0 <= i < |frag| ==> IsAlnum(frag[i])
  {
    var i, j :| IsWord(Lowered(detail), i, j) && frag == Lowered(detail)[i..j];
    forall k | 0 <= k < |frag|
      ensures IsAlnum(frag[k])
    {
      assert frag[k] == Lowered(detail)[i + k];
    }
  }
}
