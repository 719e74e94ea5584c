/** The glyph tables of the password normaliser (dictionary.go), and the
    expansion of ambiguous glyphs. */
module Glyphs {

  /** Undoes the substitutions with one reading; other bytes stay. */
  function Unleet(c: char): char {
    if c == '4' || c == '@' then 'a'
    else if c == '3' then 'e'
    else if c == '0' then 'o'
    else if c == '5' || c == '$' then 's'
    else if c == '7' || c == '+' then 't'
    else if c == '8' then 'b'
    else if c == '9' then 'g'
    else c
  }

  predicate IsUnambiguous(c: char) {
    Unleet(c) != c
  }

  /** The glyphs that read as "i" or as "l". */
  predicate IsAmbiguous(c: char) {
    c == '1' || c == '!' || c == '|'
  }

  predicate IsGlyph(c: char) {
    IsUnambiguous(c) || IsAmbiguous(c)
  }

  /** strings.Replacer over single-byte entries works byte by byte. */
  function Replace(s: string): (r: string)
    ensures |r| == |s|
    ensures forall i :: 0 <= i < |s| ==> r[i] == Unleet(s[i])
  {
    seq(|s|, i requires 0 <= i < |s| => Unleet(s[i]))
  }

  /** How many ambiguous glyphs stand before place `n`. */
  function AmbiguousBefore(s: string, n: nat): (k: nat)
    requires n <= |s|
    ensures k <= n
  {
    if n == 0 then 0
    else AmbiguousBefore(s, n - 1) + if IsAmbiguous(s[n - 1]) then 1 else 0
  }

  function AmbiguousCount(s: string): nat {
    AmbiguousBefore(s, |s|)
  }

  /** `x` takes one reading for each ambiguous glyph of `s` and keeps the rest. */
  ghost predicate TakesReadings(s: string, x: string) {
    && |x| == |s|
    && forall i :: 0 <= i < |s| ==>
         if IsAmbiguous(s[i]) then x[i] == 'i' || x[i] == 'l' else x[i] == s[i]
  }

  /** Every ambiguous glyph of `s` is read as `c` in `x`. */
  ghost predicate ReadsAllAs(s: string, x: string, c: char)
    requires |s| <= |x|
  {
    forall i :: 0 <= i < |s| && IsAmbiguous(s[i]) ==> x[i] == c
  }

  ghost predicate Uniform(s: string, x: string)
    requires |s| <= |x|
  {
    ReadsAllAs(s, x, 'i') || ReadsAllAs(s, x, 'l')
  }

  /** The readings the expansion produces: all of them for up to six glyphs, the
      two uniform ones beyond. */
  ghost predicate IsReading(s: string, x: string) {
    TakesReadings(s, x) && (AmbiguousCount(s) <= 6 || Uniform(s, x))
  }

  function Pow2(k: nat): (p: nat)
    ensures p >= 1
  {
    if k == 0 then 1 else 2 * Pow2(k - 1)
  }

  /** (mask >> bit) & 1. */
  function Bit(mask: nat, bit: nat): (b: nat)
    ensures b <= 1
  {
    if bit == 0 then mask % 2 else Bit(mask / 2, bit - 1)
  }

  function Glyph(b: nat): char {
    if b == 0 then 'i' else 'l'
  }

  /** The reading a mask selects: ambiguous glyph number k is read by bit k. */
  function Masked(s: string, mask: nat): (x: string)
    ensures |x| == |s|
  {
    seq(|s|, i requires 0 <= i < |s| =>
      if IsAmbiguous(s[i]) then Glyph(Bit(mask, AmbiguousBefore(s, i))) else s[i])
  }

  // ---- Masks and readings are in one-to-one correspondence -------------------------

  lemma {:induction false} HighBit(m: nat, k: nat, b: nat)
    requires m < Pow2(k) && b <= k
    ensures Bit(m + Pow2(k), b) == if b == k then 1 else Bit(m, b)
    ensures Bit(m, k) == 0
  {
    if k > 0 {
      HighBit(m / 2, k - 1, if b == 0 then 0 else b - 1);
      assert (m + Pow2(k)) / 2 == m / 2 + Pow2(k - 1);
      assert (m + Pow2(k)) % 2 == m % 2;
    }
  }

  lemma {:induction false} BitsDetermineMask(m: nat, n: nat, k: nat)
    requires m < Pow2(k) && n < Pow2(k)
    requires forall b :: 0 <= b < k ==> Bit(m, b) == Bit(n, b)
    ensures m == n
  {
    if k > 0 {
      assert Bit(m, 0) == Bit(n, 0);
      forall b | 0 <= b < k - 1
        ensures Bit(m / 2, b) == Bit(n / 2, b)
      {
        assert Bit(m, b + 1) == Bit(n, b + 1);
      }
      BitsDetermineMask(m / 2, n / 2, k - 1);
    }
  }

  /** Some place holds ambiguous glyph number b. */
  lemma {:induction false} GlyphNumber(s: string, n: nat, b: nat) returns (i: nat)
    requires n <= |s| && b < AmbiguousBefore(s, n)
    ensures i < n && IsAmbiguous(s[i]) && AmbiguousBefore(s, i) == b
  {
    if b < AmbiguousBefore(s, n - 1) {
      i := GlyphNumber(s, n - 1, b);
    } else {
      i := n - 1;
    }
  }

  lemma {:induction false} AmbiguousBeforeMonotone(s: string, i: nat, n: nat)
    requires i <= n <= |s|
    ensures AmbiguousBefore(s, i) <= AmbiguousBefore(s, n)
    ensures i < n && IsAmbiguous(s[i]) ==> AmbiguousBefore(s, i) < AmbiguousBefore(s, n)
    decreases n - i
  {
    if i < n {
      AmbiguousBeforeMonotone(s, i + 1, n);
    }
  }

  /** The mask reads the first n bytes of `s` as `x` does. */
  ghost predicate Selects(s: string, x: string, n: nat, mask: nat)
    requires n <= |s| == |x|
  {
    forall i :: 0 <= i < n && IsAmbiguous(s[i]) ==> x[i] == Glyph(Bit(mask, AmbiguousBefore(s, i)))
  }

  /** Setting the next higher bit leaves the lower readings alone. */
  lemma HigherBitKeeps(s: string, x: string, n: nat, low: nat)
    requires n <= |s| == |x| && low < Pow2(AmbiguousBefore(s, n)) && Selects(s, x, n, low)
    ensures Selects(s, x, n, low + Pow2(AmbiguousBefore(s, n)))
  {
    forall i | 0 <= i < n && IsAmbiguous(s[i])
      ensures x[i] == Glyph(Bit(low + Pow2(AmbiguousBefore(s, n)), AmbiguousBefore(s, i)))
    {
      AmbiguousBeforeMonotone(s, i, n);
      HighBit(low, AmbiguousBefore(s, n), AmbiguousBefore(s, i));
    }
  }

  /** The mask that selects a given reading of the first n bytes. */
  lemma {:induction false} MaskFor(s: string, x: string, n: nat) returns (mask: nat)
    requires TakesReadings(s, x) && n <= |s|
    ensures mask < Pow2(AmbiguousBefore(s, n)) && Selects(s, x, n, mask)
  {
    if n == 0 {
      mask := 0;
    } else {
      var low := MaskFor(s, x, n - 1);
      var k := AmbiguousBefore(s, n - 1);
      HighBit(low, k, k);
      if IsAmbiguous(s[n - 1]) && x[n - 1] == 'l' {
        HigherBitKeeps(s, x, n - 1, low);
        mask := low + Pow2(k);
      } else {
        mask := low;
      }
    }
  }

  lemma EveryReadingHasAMask(s: string, x: string) returns (mask: nat)
    requires TakesReadings(s, x)
    ensures mask < Pow2(AmbiguousCount(s)) && x == Masked(s, mask)
  {
    mask := MaskFor(s, x, |s|);
  }

  lemma MasksDiffer(s: string, m: nat, n: nat)
    requires m < Pow2(AmbiguousCount(s)) && n < Pow2(AmbiguousCount(s))
    requires Masked(s, m) == Masked(s, n)
    ensures m == n
  {
    forall b | 0 <= b < AmbiguousCount(s)
      ensures Bit(m, b) == Bit(n, b)
    {
      var i := GlyphNumber(s, |s|, b);
      assert Masked(s, m)[i] == Masked(s, n)[i];
    }
    BitsDetermineMask(m, n, AmbiguousCount(s));
  }

  // ---- expandAmbiguous ----------------------------------------------------------------

  predicate Distinct<T(==)>(s: seq<T>) {
    forall i, j :: 0 <= i < j < |s| ==> s[i] != s[j]
  }

  /** The scan for ambiguous glyphs; it gives up at the seventh. */
  method AmbiguousPositions(s: string) returns (positions: seq<nat>)
    ensures |positions| <= 6 <==> AmbiguousCount(s) <= 6
    ensures |positions| <= 6 ==>
              && |positions| == AmbiguousCount(s)
              && forall b :: 0 <= b < |positions| ==> NumberedAt(s, b, positions[b])
  {
    positions := [];
    for i := 0 to |s|
      invariant |positions| == AmbiguousBefore(s, i) <= 6
      invariant forall b :: 0 <= b < |positions| ==> NumberedAt(s, b, positions[b])
    {
      AmbiguousBeforeMonotone(s, i, |s|);
      if IsAmbiguous(s[i]) {
        positions := positions + [i];
        if |positions| > 6 {
          return;
        }
      }
    }
  }

  /** Ambiguous glyph number b of `s` stands at `pos`. */
  predicate NumberedAt(s: string, b: nat, pos: nat) {
    pos < |s| && IsAmbiguous(s[pos]) && AmbiguousBefore(s, pos) == b
  }

  lemma NumberIsUnique(s: string, i: nat, j: nat)
    requires i < |s| && j < |s| && IsAmbiguous(s[i]) && IsAmbiguous(s[j])
    requires AmbiguousBefore(s, i) == AmbiguousBefore(s, j)
    ensures i == j
  {
    if i < j {
      AmbiguousBeforeMonotone(s, i, j);
    } else if j < i {
      AmbiguousBeforeMonotone(s, j, i);
    }
  }

  /** One pass of the mask loop: a copy of `s` with each glyph overwritten. */
  method ApplyMask(s: string, positions: seq<nat>, mask: nat) returns (x: string)
    requires |positions| == AmbiguousCount(s)
    requires forall b :: 0 <= b < |positions| ==> NumberedAt(s, b, positions[b])
    ensures x == Masked(s, mask)
  {
    var b := new char[|s|](i requires 0 <= i < |s| => s[i]);
    for bit := 0 to |positions|
      invariant forall i :: 0 <= i < |s| ==>
                  b[i] == if IsAmbiguous(s[i]) && AmbiguousBefore(s, i) < bit
                          then Glyph(Bit(mask, AmbiguousBefore(s, i))) else s[i]
    {
      var pos := positions[bit];
      assert NumberedAt(s, bit, pos);
      forall i | 0 <= i < |s| && IsAmbiguous(s[i]) && AmbiguousBefore(s, i) == bit
        ensures i == pos
      {
        NumberIsUnique(s, i, pos);
      }
      b[pos] := if Bit(mask, bit) == 0 then 'i' else 'l';
    }
    forall i | 0 <= i < |s| && IsAmbiguous(s[i])
      ensures AmbiguousBefore(s, i) < |positions|
    {
      AmbiguousBeforeMonotone(s, i, |s|);
    }
    x := b[..];
  }

  /** The fallback: every ambiguous glyph overwritten with the same letter. */
  method ReplaceAll(s: string, c: char) returns (x: string)
    requires !IsAmbiguous(c)
    ensures |x| == |s|
    ensures forall i :: 0 <= i < |s| ==> x[i] == if IsAmbiguous(s[i]) then c else s[i]
  {
    var b := new char[|s|](i requires 0 <= i < |s| => s[i]);
    for i := 0 to |s|
      invariant forall j :: 0 <= j < i ==> b[j] == if IsAmbiguous(s[j]) then c else s[j]
      invariant forall j :: i <= j < |s| ==> b[j] == s[j]
    {
      if IsAmbiguous(b[i]) {
        b[i] := c;
      }
    }
    x := b[..];
  }

  /** Exactly the readings, each once: 2^k of them for k <= 6 ambiguous glyphs,
      the two uniform ones beyond. */
  method ExpandAmbiguous(s: string) returns (out: seq<string>)
    ensures forall x :: x in out <==> IsReading(s, x)
    ensures Distinct(out)
    ensures |out| == if AmbiguousCount(s) <= 6 then Pow2(AmbiguousCount(s)) else 2
  {
    var positions := AmbiguousPositions(s);
    if |positions| == 0 {
      out := [s];
      NoGlyphsNoChoice(s);
      return;
    }
    if |positions| > 6 {
      var allI := ReplaceAll(s, 'i');
      var allL := ReplaceAll(s, 'l');
      TwoUniformReadings(s, allI, allL);
      return [allI, allL];
    }
    out := [];
    var n := Pow2(|positions|);
    for mask := 0 to n
      invariant |out| == mask
      invariant forall m :: 0 <= m < mask ==> out[m] == Masked(s, m)
    {
      var x := ApplyMask(s, positions, mask);
      out := out + [x];
    }
    MasksAreReadings(s, out);
  }

  lemma {:induction false} NoneBefore(s: string, n: nat)
    requires n <= |s| && AmbiguousBefore(s, n) == 0
    ensures forall i :: 0 <= i < n ==> !IsAmbiguous(s[i])
  {
    if n > 0 {
      NoneBefore(s, n - 1);
    }
  }

  lemma NoGlyphsNoChoice(s: string)
    requires AmbiguousCount(s) == 0
    ensures forall x :: IsReading(s, x) <==> x == s
  {
    NoneBefore(s, |s|);
    forall x
      ensures IsReading(s, x) <==> x == s
    {
    }
  }

  lemma TwoUniformReadings(s: string, allI: string, allL: string)
    requires AmbiguousCount(s) > 6
    requires |allI| == |allL| == |s|
    requires forall i :: 0 <= i < |s| ==> allI[i] == if IsAmbiguous(s[i]) then 'i' else s[i]
    requires forall i :: 0 <= i < |s| ==> allL[i] == if IsAmbiguous(s[i]) then 'l' else s[i]
    ensures allI != allL
    ensures forall x :: IsReading(s, x) <==> x == allI || x == allL
  {
    var i := GlyphNumber(s, |s|, 0);
    assert allI[i] != allL[i];
    forall x | IsReading(s, x)
      ensures x == allI || x == allL
    {
      if ReadsAllAs(s, x, 'i') {
        assert x == allI;
      } else {
        assert x == allL;
      }
    }
  }

  lemma MasksAreReadings(s: string, out: seq<string>)
    requires AmbiguousCount(s) <= 6
    requires |out| == Pow2(AmbiguousCount(s))
    requires forall m :: 0 <= m < |out| ==> out[m] == Masked(s, m)
    ensures forall x :: x in out <==> IsReading(s, x)
    ensures Distinct(out)
  {
    forall x
      ensures x in out <==> IsReading(s, x)
    {
      if IsReading(s, x) {
        var m := EveryReadingHasAMask(s, x);
        assert out[m] == x;
      }
    }
    forall i, j | 0 <= i < j < |out|
      ensures out[i] != out[j]
    {
      if out[i] == out[j] {
        MasksDiffer(s, i, j);
      }
    }
  }

  lemma {:induction false} NoneCounted(s: string, n: nat)
    requires n <= |s| && forall i :: 0 <= i < n ==> !IsAmbiguous(s[i])
    ensures AmbiguousBefore(s, n) == 0
  {
    if n > 0 {
      NoneCounted(s, n - 1);
    }
  }

  /** A reading holds no ambiguous glyph, so expanding it again gives it back
      alone. */
  lemma ReexpansionIsIdentity(s: string, x: string)
    requires IsReading(s, x)
    ensures AmbiguousCount(x) == 0
    ensures forall y :: IsReading(x, y) <==> y == x
  {
    assert forall i :: 0 <= i < |x| ==> !IsAmbiguous(x[i]);
    NoneCounted(x, |x|);
    NoGlyphsNoChoice(x);
  }
}
