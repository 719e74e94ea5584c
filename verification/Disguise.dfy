/** Which disguises of a listed word the normaliser sees through: a complete and
    exact answer. */
module Disguise {
  import opened Text
  import opened Glyphs
  import opened Dictionary

  // ---- Disguises, told without the normaliser's tables -------------------------------------

  /** A glyph that people write for one letter. */
  predicate StandsFor(g: char, c: char) {
    || (c == 'a' && (g == '4' || g == '@'))
    || (c == 'b' && g == '8')
    || (c == 'e' && g == '3')
    || (c == 'g' && g == '9')
    || (c == 'o' && g == '0')
    || (c == 's' && (g == '5' || g == '$'))
    || (c == 't' && (g == '7' || g == '+'))
  }

  /** A glyph that people write for either of two letters, i and l. */
  predicate IsShared(g: char) {
    g == '1' || g == '!' || g == '|'
  }

  predicate IsLeet(g: char) {
    g == '0' || g == '3' || g == '4' || g == '5' || g == '7' || g == '8' || g == '9' || g == '@' || g == '$'
    || g == '+' || IsShared(g)
  }

  /** What people append: every visible character that is neither a letter nor one
      of Latin-1's ordinals, fractions, superscripts or soft hyphen. */
  predicate IsDecoration(c: char) {
    && '!' <= c <= '\U{FF}'
    && !('A' <= c <= 'Z') && !('a' <= c <= 'z')
    && !('\U{7F}' <= c <= '\U{A0}')
    && c != '\U{AA}' && c != '\U{AD}' && c != '\U{B2}' && c != '\U{B3}' && c != '\U{B5}'
    && c != '\U{B9}' && c != '\U{BA}' && !('\U{BC}' <= c <= '\U{BE}')
    && ('\U{C0}' <= c ==> c == '\U{D7}' || c == '\U{F7}')
  }

  /** A word worth disguising: no capital and no leet glyph in it, no space at its
      front, and a last byte that is neither decoration nor a space. */
  ghost predicate PlainWord(w: string) {
    && w != ""
    && (forall i :: 0 <= i < |w| ==> !IsLeet(w[i]) && !('A' <= w[i] <= 'Z'))
    && !IsSpace(w[0])
    && !IsDecoration(w[|w| - 1]) && !IsSpace(w[|w| - 1])
  }

  /** `g` is written for the letter `c`: the letter itself, its capital, or a glyph. */
  predicate Wears(c: char, g: char) {
    || g == c
    || ('a' <= c <= 'z' && g as int == c as int - 32)
    || StandsFor(g, c)
    || (IsShared(g) && (c == 'i' || c == 'l'))
  }

  ghost predicate IsDisguise(w: string, d: string) {
    |d| == |w| && forall i :: 0 <= i < |w| ==> Wears(w[i], d[i])
  }

  ghost predicate AllDecoration(f: string) {
    forall i :: 0 <= i < |f| ==> IsDecoration(f[i])
  }

  /** How many shared glyphs there are. */
  function SharedCount(d: string): nat {
    if d == "" then 0 else SharedCount(d[..|d| - 1]) + if IsShared(d[|d| - 1]) then 1 else 0
  }

  /** All shared glyphs of `d` hide the letter `c`. */
  ghost predicate AllHide(w: string, d: string, c: char)
    requires |w| == |d|
  {
    forall i :: 0 <= i < |d| && IsShared(d[i]) ==> w[i] == c
  }

  /** What a caller can check beforehand: few enough shared glyphs, or all of them
      hiding the same letter; and nothing appended, or appended to a letter, or
      appended without a leet glyph among it. */
  ghost predicate SeenThrough(w: string, d: string, f: string)
    requires |w| == |d| > 0
  {
    && (SharedCount(d) <= 6 || AllHide(w, d, 'i') || AllHide(w, d, 'l'))
    && (f == "" || !IsDecoration(d[|d| - 1]) || forall i :: 0 <= i < |f| ==> !IsLeet(f[i]))
  }

  // ---- The tables say the same ---------------------------------------------------------------

  lemma TablesAgree(c: char)
    ensures IsAmbiguous(c) <==> IsShared(c)
    ensures IsGlyph(c) <==> IsLeet(c)
    ensures IsFiller(c) <==> IsDecoration(c)
  {
  }

  /** Each unambiguous glyph is read as the letter it stands for. */
  lemma GlyphIsUndone(g: char, c: char)
    ensures StandsFor(g, c) <==> IsUnambiguous(g) && Unleet(g) == c
  {
  }

  ghost predicate AllFiller(f: string) {
    forall i :: 0 <= i < |f| ==> IsFiller(f[i])
  }

  ghost predicate NoGlyph(f: string) {
    forall i :: 0 <= i < |f| ==> !IsGlyph(f[i])
  }

  /** The condition in the normaliser's terms. */
  ghost predicate TablesSeeThrough(w: string, d: string, f: string)
    requires |w| == |d| > 0
  {
    && (AmbiguousCount(d) <= 6 || Uniform(d, w))
    && (f == "" || !IsFiller(d[|d| - 1]) || NoGlyph(f))
  }

  lemma {:induction false} CountIsShared(d: string, n: nat)
    requires n <= |d|
    ensures AmbiguousBefore(d, n) == SharedCount(d[..n])
  {
    if n > 0 {
      CountIsShared(d, n - 1);
      TablesAgree(d[n - 1]);
      assert d[..n][..n - 1] == d[..n - 1];
    }
  }

  lemma DecorationIsFiller(f: string)
    ensures AllDecoration(f) <==> AllFiller(f)
    ensures NoGlyph(f) <==> forall i :: 0 <= i < |f| ==> !IsLeet(f[i])
  {
    forall i | 0 <= i < |f|
      ensures IsDecoration(f[i]) <==> IsFiller(f[i])
      ensures IsGlyph(f[i]) <==> IsLeet(f[i])
    {
      TablesAgree(f[i]);
    }
  }

  lemma UniformIsAllHide(w: string, d: string)
    requires |w| == |d|
    ensures Uniform(d, w) <==> AllHide(w, d, 'i') || AllHide(w, d, 'l')
  {
    forall i | 0 <= i < |d|
      ensures IsAmbiguous(d[i]) <==> IsShared(d[i])
    {
      TablesAgree(d[i]);
    }
    assert ReadsAllAs(d, w, 'i') <==> AllHide(w, d, 'i');
    assert ReadsAllAs(d, w, 'l') <==> AllHide(w, d, 'l');
  }

  lemma ConditionsAgree(w: string, d: string, f: string)
    requires |w| == |d| > 0
    ensures SeenThrough(w, d, f) <==> TablesSeeThrough(w, d, f)
  {
    CountIsShared(d, |d|);
    assert d[..|d|] == d;
    UniformIsAllHide(w, d);
    TablesAgree(d[|d| - 1]);
    DecorationIsFiller(f);
  }

  lemma GlyphFacts(c: char)
    ensures IsGlyph(c) ==> IsFiller(c) && !IsSpace(c) && !IsLetter(c) && LowerChar(c) == c
    ensures IsFiller(c) ==> !IsSpace(c) && !IsLetter(c) && LowerChar(c) == c
    ensures IsUnambiguous(c) ==> !IsFiller(Unleet(c)) && !IsGlyph(Unleet(c))
    ensures !IsFiller('i') && !IsFiller('l')
  {
  }

  /** Letter by letter, a disguise and its word agree once the unambiguous
      glyphs are undone, except where an ambiguous glyph stands for i or l. */
  lemma WornByte(c: char, g: char)
    requires !IsGlyph(c) && !IsUpper(c) && Wears(c, g)
    ensures IsAmbiguous(Unleet(LowerChar(g))) <==> IsAmbiguous(g)
    ensures IsAmbiguous(g) ==> c == 'i' || c == 'l'
    ensures !IsAmbiguous(g) ==> Unleet(LowerChar(g)) == c
    ensures IsAmbiguous(LowerChar(g)) <==> IsAmbiguous(g)
    ensures IsFiller(LowerChar(g)) <==> IsFiller(g)
    ensures IsSpace(g) ==> IsSpace(c)
    ensures IsFiller(g) && !IsFiller(c) ==> IsGlyph(g)
  {
    GlyphFacts(g);
    GlyphFacts(c);
    TablesAgree(g);
    GlyphIsUndone(g, c);
  }

  /** What a plain word is, in the tables' terms. */
  lemma PlainByte(w: string, i: nat)
    requires PlainWord(w) && i < |w|
    ensures !IsGlyph(w[i]) && !IsUpper(w[i])
    ensures !IsFiller(w[|w| - 1])
  {
    TablesAgree(w[i]);
    TablesAgree(w[|w| - 1]);
  }

  lemma {:induction false} CountsAgree(s: string, t: string, n: nat)
    requires n <= |s| && n <= |t|
    requires forall i :: 0 <= i < n ==> (IsAmbiguous(s[i]) <==> IsAmbiguous(t[i]))
    ensures AmbiguousBefore(s, n) == AmbiguousBefore(t, n)
  {
    if n > 0 {
      CountsAgree(s, t, n - 1);
    }
  }

  /** The word and the substituted disguise, byte by byte. */
  lemma WordIsAReading(w: string, d: string)
    requires PlainWord(w) && IsDisguise(w, d)
    ensures TakesReadings(Replace(Lower(d)), w)
    ensures AmbiguousCount(Replace(Lower(d))) == AmbiguousCount(d)
    ensures Uniform(Replace(Lower(d)), w) <==> Uniform(d, w)
  {
    var s := Replace(Lower(d));
    forall i | 0 <= i < |w|
      ensures IsAmbiguous(s[i]) <==> IsAmbiguous(d[i])
      ensures if IsAmbiguous(s[i]) then w[i] == 'i' || w[i] == 'l' else w[i] == s[i]
    {
      PlainByte(w, i);
      WornByte(w[i], d[i]);
    }
    CountsAgree(s, d, |d|);
    assert ReadsAllAs(s, w, 'i') <==> ReadsAllAs(d, w, 'i');
    assert ReadsAllAs(s, w, 'l') <==> ReadsAllAs(d, w, 'l');
  }

  lemma FillerStays(f: string)
    requires AllFiller(f)
    ensures Lower(f) == f
  {
    forall i | 0 <= i < |f|
      ensures LowerChar(f[i]) == f[i]
    {
      GlyphFacts(f[i]);
    }
  }

  lemma NoSpaceAtTheEnds(w: string, d: string, f: string)
    requires PlainWord(w) && IsDisguise(w, d) && AllFiller(f)
    ensures Trim(d + f) == d + f
  {
    var t := d + f;
    PlainByte(w, 0);
    WornByte(w[0], d[0]);
    assert !IsSpace(t[0]);
    if f == "" {
      PlainByte(w, |w| - 1);
      WornByte(w[|w| - 1], d[|w| - 1]);
      assert t[|t| - 1] == d[|w| - 1];
    } else {
      GlyphFacts(f[|f| - 1]);
      assert t[|t| - 1] == f[|f| - 1];
    }
    TrimIsIdentity(t);
  }

  /** What the normaliser starts from. */
  lemma LoweredDisguise(w: string, d: string, f: string)
    requires PlainWord(w) && IsDisguise(w, d) && AllFiller(f)
    ensures Lowered(d + f) == Lower(d) + f
  {
    NoSpaceAtTheEnds(w, d, f);
    FillerStays(f);
    assert Lower(d + f) == Lower(d) + Lower(f);
  }

  lemma {:induction false} CoreEndOfRun(s: string, end: nat, from: nat)
    requires from <= end <= |s|
    requires forall i :: from <= i < end ==> IsFiller(s[i])
    requires from > 0 ==> !IsFiller(s[from - 1])
    ensures CoreEnd(s, end) == from
  {
    if end > from {
      CoreEndOfRun(s, end - 1, from);
    }
  }

  // ---- Every such disguise is seen through -------------------------------------------

  lemma SeenThroughPlain(w: string, d: string, f: string, base: string)
    requires PlainWord(w) && IsDisguise(w, d) && AllFiller(f)
    requires AmbiguousCount(d) <= 6 || Uniform(d, w)
    requires base == Lower(d) && IsBase(d + f, base)
    ensures IsForm(d + f, w)
  {
    WordIsAReading(w, d);
    LoweredDisguise(w, d, f);
    assert IsReading(Replace(base), w) && Yields(w, w);
    assert FormOfBase(base, w);
  }

  /** A reading of the front extends over a tail without glyphs. */
  lemma ReadingOfTail(head: string, w: string, f: string)
    requires IsReading(head, w) && NoGlyph(f)
    ensures IsReading(head + f, w + f)
  {
    var s, r := head + f, w + f;
    assert forall i :: |head| <= i < |s| ==> s[i] == f[i - |head|] && r[i] == f[i - |head|];
    CountSplits(s, head);
    assert ReadsAllAs(head, w, 'i') ==> ReadsAllAs(s, r, 'i');
    assert ReadsAllAs(head, w, 'l') ==> ReadsAllAs(s, r, 'l');
  }

  lemma ReplaceKeepsTail(a: string, f: string)
    requires NoGlyph(f)
    ensures Replace(a + f) == Replace(a) + f
  {
  }

  lemma StripOfWordAndFiller(w: string, f: string)
    requires PlainWord(w) && AllFiller(f)
    ensures StripFiller(w + f) == w
  {
    var r := w + f;
    forall i | |w| <= i < |r|
      ensures IsFiller(r[i])
    {
      assert r[i] == f[i - |w|];
    }
    CoreEndOfRun(r, |r|, |w|);
    assert r[..|w|] == w;
  }

  lemma SeenThroughFiller(w: string, d: string, f: string)
    requires PlainWord(w) && IsDisguise(w, d) && AllFiller(f) && NoGlyph(f)
    requires AmbiguousCount(d) <= 6 || Uniform(d, w)
    ensures IsForm(d + f, w)
  {
    LoweredDisguise(w, d, f);
    WordIsAReading(w, d);
    var base := Lower(d) + f;
    ReadingOfTail(Replace(Lower(d)), w, f);
    ReplaceKeepsTail(Lower(d), f);
    StripOfWordAndFiller(w, f);
    assert IsReading(Replace(base), w + f) && Yields(w + f, w);
    assert FormOfBase(base, w) && IsBase(d + f, base);
  }

  lemma {:induction false} CountSplits(s: string, head: string)
    requires |head| <= |s|
    requires forall i :: 0 <= i < |head| ==> (IsAmbiguous(s[i]) <==> IsAmbiguous(head[i]))
    ensures AmbiguousCount(s) >= AmbiguousCount(head)
    ensures (forall i :: |head| <= i < |s| ==> !IsAmbiguous(s[i])) ==> AmbiguousCount(s) == AmbiguousCount(head)
  {
    CountsAgree(s, head, |head|);
    AmbiguousBeforeMonotone(s, |head|, |s|);
    if forall i :: |head| <= i < |s| ==> !IsAmbiguous(s[i]) {
      NothingAdded(s, |head|, |s|);
    }
  }

  lemma {:induction false} NothingAdded(s: string, i: nat, n: nat)
    requires i <= n <= |s| && forall j :: i <= j < n ==> !IsAmbiguous(s[j])
    ensures AmbiguousBefore(s, n) == AmbiguousBefore(s, i)
  {
    if i < n {
      NothingAdded(s, i, n - 1);
    }
  }

  /** Stripping the filler after a disguise that does not end in filler leaves
      the lowered disguise. */
  lemma StrippedToTheDisguise(w: string, d: string, f: string)
    requires PlainWord(w) && IsDisguise(w, d) && AllFiller(f) && !IsFiller(d[|d| - 1])
    ensures StripFiller(Lower(d) + f) == Lower(d)
  {
    var s := Lower(d) + f;
    PlainByte(w, |w| - 1);
    WornByte(w[|w| - 1], d[|d| - 1]);
    assert s[|d| - 1] == LowerChar(d[|d| - 1]);
    forall i | |d| <= i < |s|
      ensures IsFiller(s[i])
    {
      assert s[i] == f[i - |d|];
    }
    CoreEndOfRun(s, |s|, |d|);
    assert s[..|d|] == Lower(d);
  }

  lemma SeenThroughUnfilled(w: string, d: string)
    requires PlainWord(w) && IsDisguise(w, d)
    requires AmbiguousCount(d) <= 6 || Uniform(d, w)
    ensures IsForm(d + "", w)
  {
    LoweredDisguise(w, d, "");
    assert Lower(d) + "" == Lower(d);
    SeenThroughPlain(w, d, "", Lower(d));
  }

  lemma SeenThroughStripped(w: string, d: string, f: string)
    requires PlainWord(w) && IsDisguise(w, d) && AllFiller(f) && !IsFiller(d[|d| - 1])
    requires AmbiguousCount(d) <= 6 || Uniform(d, w)
    ensures IsForm(d + f, w)
  {
    LoweredDisguise(w, d, f);
    StrippedToTheDisguise(w, d, f);
    SeenThroughPlain(w, d, f, Lower(d));
  }

  lemma SeenThroughIsAForm(w: string, d: string, f: string)
    requires PlainWord(w) && IsDisguise(w, d) && AllFiller(f)
    requires TablesSeeThrough(w, d, f)
    ensures IsForm(d + f, w)
  {
    if f == "" {
      SeenThroughUnfilled(w, d);
    } else if !IsFiller(d[|d| - 1]) {
      SeenThroughStripped(w, d, f);
    } else {
      SeenThroughFiller(w, d, f);
    }
  }

  // ---- And nothing else is -------------------------------------------------------------

  /** The lowered password is the first base; the second is a prefix of it. */
  lemma BaseIsAPrefix(password: string, base: string)
    requires IsBase(password, base)
    ensures base <= Lowered(password)
    ensures base == Lowered(password) || |base| == CoreEnd(Lowered(password), |Lowered(password)|)
  {
  }

  lemma CoreNotInFiller(s: string, from: nat)
    requires from <= |s|
    requires forall i :: from <= i < |s| ==> IsFiller(s[i])
    ensures CoreEnd(s, |s|) <= from
  {
  }

  /** Either base of a disguised password begins with the lowered disguise, or is
      too short to yield the word. */
  lemma BasesBeginWithTheDisguise(w: string, d: string, f: string, base: string)
    requires PlainWord(w) && IsDisguise(w, d) && AllFiller(f) && IsBase(d + f, base)
    ensures |base| < |w| || Lower(d) <= base
  {
    LoweredDisguise(w, d, f);
    BaseIsAPrefix(d + f, base);
    if |base| >= |w| {
      assert base[..|d|] == (Lower(d) + f)[..|d|] == Lower(d);
    }
  }

  /** Stripping eats into a disguise that ends in a glyph. */
  lemma StrippedBaseIsTooShort(w: string, d: string, f: string, base: string)
    requires PlainWord(w) && IsDisguise(w, d) && AllFiller(f) && IsBase(d + f, base)
    requires IsFiller(d[|d| - 1])
    ensures |base| < |w| || base == Lower(d) + f
  {
    LoweredDisguise(w, d, f);
    var lower := Lower(d) + f;
    BaseIsAPrefix(d + f, base);
    GlyphFacts(d[|d| - 1]);
    forall i | |d| - 1 <= i < |lower|
      ensures IsFiller(lower[i])
    {
      if i >= |d| {
        assert lower[i] == f[i - |d|];
      }
    }
    CoreNotInFiller(lower, |d| - 1);
  }

  /** If the word comes out of a base, it comes out of a reading of it, as a
      prefix. */
  lemma FormComesFromAReading(w: string, base: string) returns (r: string)
    requires PlainWord(w) && FormOfBase(base, w)
    ensures IsReading(Replace(base), r) && w <= r && (w == r || w == StripFiller(r))
  {
    if w == base {
      r := w;
      var s := Replace(base);
      assert forall i :: 0 <= i < |s| ==> s[i] == w[i] && !IsAmbiguous(s[i]);
      NoneCounted(s, |s|);
    } else {
      r :| IsReading(Replace(base), r) && Yields(r, w);
    }
  }

  lemma FewOrUniform(head: string, s: string, r: string, w: string)
    requires head <= s && |w| == |head| && IsReading(s, r) && w <= r
    ensures AmbiguousCount(head) <= 6 || Uniform(head, w)
  {
    CountSplits(s, head);
    assert ReadsAllAs(s, r, 'i') ==> ReadsAllAs(head, w, 'i');
    assert ReadsAllAs(s, r, 'l') ==> ReadsAllAs(head, w, 'l');
  }

  lemma FormNeedsFewOrUniform(w: string, d: string, f: string, base: string)
    requires PlainWord(w) && IsDisguise(w, d) && AllFiller(f) && IsBase(d + f, base) && FormOfBase(base, w)
    ensures AmbiguousCount(d) <= 6 || Uniform(d, w)
  {
    var r := FormComesFromAReading(w, base);
    BasesBeginWithTheDisguise(w, d, f, base);
    assert Replace(Lower(d)) <= Replace(base);
    FewOrUniform(Replace(Lower(d)), Replace(base), r, w);
    WordIsAReading(w, d);
  }

  /** A glyph never stays filler: every reading turns it into a letter. */
  lemma GlyphReadsAsLetter(base: string, r: string, i: nat)
    requires IsReading(Replace(base), r) && i < |base| && IsGlyph(base[i])
    ensures !IsFiller(r[i])
  {
    GlyphFacts(base[i]);
  }

  lemma StripStopsAtLetter(r: string, i: nat)
    requires i < |r| && !IsFiller(r[i])
    ensures |StripFiller(r)| > i
  {
  }

  lemma GlyphInTailLengthens(head: string, f: string, j: nat, r: string)
    requires j < |f| && IsGlyph(f[j]) && IsReading(Replace(head + f), r)
    ensures |r| == |head| + |f| && |StripFiller(r)| > |head|
  {
    var i := |head| + j;
    assert (head + f)[i] == f[j];
    GlyphReadsAsLetter(head + f, r, i);
    StripStopsAtLetter(r, i);
  }

  lemma FormNeedsCleanTail(w: string, d: string, f: string, base: string)
    requires PlainWord(w) && IsDisguise(w, d) && AllFiller(f) && IsBase(d + f, base) && FormOfBase(base, w)
    ensures f == "" || !IsFiller(d[|d| - 1]) || NoGlyph(f)
  {
    var r := FormComesFromAReading(w, base);
    if f != "" && IsFiller(d[|d| - 1]) && !NoGlyph(f) {
      StrippedBaseIsTooShort(w, d, f, base);
      assert base == Lower(d) + f;
      var j :| 0 <= j < |f| && IsGlyph(f[j]);
      GlyphInTailLengthens(Lower(d), f, j, r);
      assert false;
    }
  }

  /** For every plain word, every disguise of it and every run of decoration
      appended: the word is among the forms looked up exactly when the condition
      holds. */
  lemma DisguiseIsSeenThroughIff(w: string, d: string, f: string)
    requires PlainWord(w) && IsDisguise(w, d) && AllDecoration(f)
    ensures IsForm(d + f, w) <==> SeenThrough(w, d, f)
  {
    ConditionsAgree(w, d, f);
    DecorationIsFiller(f);
    if TablesSeeThrough(w, d, f) {
      SeenThroughIsAForm(w, d, f);
    }
    if IsForm(d + f, w) {
      var base :| IsBase(d + f, base) && FormOfBase(base, w);
      FormNeedsFewOrUniform(w, d, f, base);
      FormNeedsCleanTail(w, d, f, base);
    }
  }

  /** Hence such a disguise of a listed word is refused. */
  lemma DisguisedListedWordIsRefused(words: set<string>, w: string, d: string, f: string)
    requires w in words
    requires PlainWord(w) && IsDisguise(w, d) && AllDecoration(f) && SeenThrough(w, d, f)
    ensures Listed(words, d + f)
  {
    DisguiseIsSeenThroughIff(w, d, f);
  }

  lemma {:induction false} NoneShared(d: string)
    requires forall i :: 0 <= i < |d| ==> !IsShared(d[i])
    ensures SharedCount(d) == 0
  {
    if d != "" {
      NoneShared(d[..|d| - 1]);
    }
  }

  lemma HelloDisguised()
    ensures PlainWord("hello") && IsDisguise("hello", "hell0") && SharedCount("hell0") == 0
    ensures IsDecoration("hell0"[4]) && AllDecoration("1") && IsLeet("1"[0])
  {
    var w, d := "hello", "hell0";
    assert w[0] == 'h' && w[1] == 'e' && w[2] == 'l' && w[3] == 'l' && w[4] == 'o';
    assert d[0] == 'h' && d[1] == 'e' && d[2] == 'l' && d[3] == 'l' && d[4] == '0';
    NoneShared(d);
  }

  /** The condition cannot be dropped: "hell0" is caught, "hell0" with a digit
      appended is not. */
  lemma GlyphBeforeFillerSlipsThrough()
    ensures Listed({"hello"}, "hell0")
    ensures !Listed({"hello"}, "hell0" + "1")
  {
    var w, d := "hello", "hell0";
    HelloDisguised();
    DisguiseIsSeenThroughIff(w, d, "1");
    DisguiseIsSeenThroughIff(w, d, "");
    assert d + "" == d;
    assert IsForm(d, w);
  }
}
