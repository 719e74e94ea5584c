/** Byte strings as the package handles them.

    A `char` stands for one byte. Case folding and trimming follow Go's
    `strings` package on ASCII text. */
module Text {

  predicate IsSpace(c: char) {
    c == ' ' || '\t' <= c <= '\r'
  }

  predicate IsDigit(c: char) {
    '0' <= c <= '9'
  }

  predicate IsUpper(c: char) {
    'A' <= c <= 'Z'
  }

  predicate IsLower(c: char) {
    'a' <= c <= 'z'
  }

  predicate IsLetter(c: char) {
    IsUpper(c) || IsLower(c)
  }

  predicate IsAlnum(c: char) {
    IsLetter(c) || IsDigit(c)
  }

  function LowerChar(c: char): char {
    if IsUpper(c) then c + 32 as char else c
  }

  function UpperChar(c: char): char {
    if IsLower(c) then c - 32 as char else c
  }

  /** strings.ToLower on ASCII. */
  function Lower(s: string): (r: string)
    ensures |r| == |s|
    ensures forall i :: 0 <= i < |s| ==> r[i] == LowerChar(s[i])
  {
    seq(|s|, i requires 0 <= i < |s| => LowerChar(s[i]))
  }

  /** strings.ToUpper on ASCII. */
  function Upper(s: string): (r: string)
    ensures |r| == |s|
    ensures forall i :: 0 <= i < |s| ==> r[i] == UpperChar(s[i])
  {
    seq(|s|, i requires 0 <= i < |s| => UpperChar(s[i]))
  }

  /** The first place at or after `i` that is not white space. */
  function SkipForward(s: string, i: nat): (r: nat)
    requires i <= |s|
    ensures i <= r <= |s|
    ensures r < |s| ==> !IsSpace(s[r])
    ensures forall k :: i <= k < r ==> IsSpace(s[k])
    decreases |s| - i
  {
    if i < |s| && IsSpace(s[i]) then SkipForward(s, i + 1) else i
  }

  /** The place just after the last byte before `j` that is not white space. */
  function SkipBack(s: string, lo: nat, j: nat): (r: nat)
    requires lo <= j <= |s|
    ensures lo <= r <= j
    ensures lo < r ==> !IsSpace(s[r - 1])
    ensures forall k :: r <= k < j ==> IsSpace(s[k])
    decreases j
  {
    if lo < j && IsSpace(s[j - 1]) then SkipBack(s, lo, j - 1) else j
  }

  /** strings.TrimSpace on ASCII. */
  function Trim(s: string): string {
    var lo := SkipForward(s, 0);
    s[lo..SkipBack(s, lo, |s|)]
  }

  /** Text with no white space at either end is left alone. */
  lemma TrimIsIdentity(s: string)
    requires s == [] || (!IsSpace(s[0]) && !IsSpace(s[|s| - 1]))
    ensures Trim(s) == s
  {
  }

  /** A stretch of `s` with no white space in it lies within Trim(s). */
  lemma TrimKeeps(s: string, i: nat, j: nat) returns (k: nat)
    requires i < j <= |s|
    requires forall m :: i <= m < j ==> !IsSpace(s[m])
    ensures k + (j - i) <= |Trim(s)|
    ensures Trim(s)[k..k + (j - i)] == s[i..j]
  {
    var lo := SkipForward(s, 0);
    assert !IsSpace(s[i]) && !IsSpace(s[j - 1]);
    var hi := SkipBack(s, lo, |s|);
    assert lo <= i && j <= hi;
    k := i - lo;
    SliceOfSlice(s, lo, hi, k, k + (j - i));
  }

  lemma SliceOfSlice(s: string, lo: nat, hi: nat, a: nat, b: nat)
    requires lo <= hi <= |s| && a <= b <= hi - lo
    ensures s[lo..hi][a..b] == s[lo + a..lo + b]
  {
    forall k | 0 <= k < b - a
      ensures s[lo..hi][a..b][k] == s[lo + a..lo + b][k]
    {
      assert s[lo..hi][a + k] == s[lo + a + k];
    }
  }

  /** What trimming takes off. */
  lemma Margins(s: string) returns (a: string, b: string)
    ensures s == (a + Trim(s)) + b
    ensures forall i :: 0 <= i < |a| ==> IsSpace(a[i])
    ensures forall i :: 0 <= i < |b| ==> IsSpace(b[i])
  {
    var lo := SkipForward(s, 0);
    var hi := SkipBack(s, lo, |s|);
    a, b := s[..lo], s[hi..];
  }

  /** A space, a tab, or one of the four ends of line and page. */
  predicate IsBlank(c: char) {
    c == ' ' || c == '\t' || c == '\n' || c == '\U{0B}' || c == '\U{0C}' || c == '\r'
  }

  /** Blanks around text that has none at its ends are what trimming takes off. */
  lemma TrimTakesBlanks(a: string, body: string, b: string)
    requires forall i :: 0 <= i < |a| ==> IsBlank(a[i])
    requires forall i :: 0 <= i < |b| ==> IsBlank(b[i])
    requires body != "" && !IsBlank(body[0]) && !IsBlank(body[|body| - 1])
    ensures Trim((a + body) + b) == body
  {
    var s := (a + body) + b;
    assert s[|a|] == body[0] && s[|a| + |body| - 1] == body[|body| - 1];
    forall k | 0 <= k < |a|
      ensures IsSpace(s[k])
    {
      assert s[k] == a[k];
    }
    forall k | |a| + |body| <= k < |s|
      ensures IsSpace(s[k])
    {
      assert s[k] == b[k - |a| - |body|];
    }
    assert SkipForward(s, 0) == |a|;
    assert SkipBack(s, |a|, |s|) == |a| + |body|;
  }

  /** The same text, letter case aside. */
  predicate SameLetters(s: string, t: string) {
    && |s| == |t|
    && forall i :: 0 <= i < |s| ==>
         || s[i] == t[i]
         || ('A' <= s[i] <= 'Z' && t[i] as int == s[i] as int + 32)
         || ('A' <= t[i] <= 'Z' && s[i] as int == t[i] as int + 32)
  }

  lemma LowerIgnoresCase(s: string, t: string)
    ensures SameLetters(s, t) <==> Lower(s) == Lower(t)
  {
    if Lower(s) == Lower(t) {
      forall i | 0 <= i < |s|
        ensures LowerChar(s[i]) == LowerChar(t[i])
      {
        assert Lower(s)[i] == Lower(t)[i];
      }
    }
  }

  /** Whether `part` occurs in `s` as a contiguous run (strings.Contains). */
  ghost predicate Contains(s: string, part: string) {
    exists k: nat :: OccursAt(s, part, k)
  }

  predicate OccursAt(s: string, part: string, k: nat) {
    k + |part| <= |s| && s[k..k + |part|] == part
  }
}
