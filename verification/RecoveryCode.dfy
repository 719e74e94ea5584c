/** Recovery codes (recovery.go) and how typed codes are routed (mfa.go). */
module RecoveryCode {
  import opened Prelude
  import opened Text

  const ALPHABET: string := "0123456789ABCDEFGHJKMNPQRSTVWXYZ"

  /** The symbols a code may be printed in: capitals and digits. */
  predicate IsAlphabet(a: string) {
    && 1 <= |a| <= 256
    && forall c :: c in a ==> IsUpper(c) || IsDigit(c)
  }

  /** The bytes below this bound map onto n symbols without bias. */
  function Limit(n: nat): int
    requires 1 <= n
  {
    (256 / n) * n
  }

  /** The bytes rejection sampling keeps, in order. */
  function Kept(stream: seq<Byte>, limit: int): (r: seq<Byte>)
    ensures |r| <= |stream|
  {
    if stream == [] then []
    else
      var last := stream[|stream| - 1];
      Kept(stream[..|stream| - 1], limit) + if last < limit then [last] else []
  }

  function SymbolFor(alphabet: string, x: Byte): char
    requires alphabet != []
  {
    alphabet[x % |alphabet|]
  }

  function Symbols(alphabet: string, bytes: seq<Byte>): (r: string)
    requires alphabet != []
    ensures |r| == |bytes|
  {
    seq(|bytes|, i requires 0 <= i < |bytes| => SymbolFor(alphabet, bytes[i]))
  }

  lemma SymbolsAreOfAlphabet(alphabet: string, bytes: seq<Byte>)
    requires alphabet != []
    ensures forall c :: c in Symbols(alphabet, bytes) ==> c in alphabet
  {
  }

  /** The dash written before character number n, if any. */
  function DashBefore(n: nat): string {
    if n > 0 && n % 4 == 0 then "-" else ""
  }

  /** Dashes between every four characters. */
  function Grouped(s: string): string {
    if s == [] then []
    else Grouped(s[..|s| - 1]) + DashBefore(|s| - 1) + [s[|s| - 1]]
  }

  lemma {:induction false} KeptConcat(a: seq<Byte>, b: seq<Byte>, limit: int)
    ensures Kept(a + b, limit) == Kept(a, limit) + Kept(b, limit)
  {
    if b == [] {
      assert a + b == a;
    } else {
      assert (a + b)[..|a + b| - 1] == a + b[..|b| - 1];
      KeptConcat(a, b[..|b| - 1], limit);
    }
  }

  lemma {:induction false} KeptAll(stream: seq<Byte>)
    ensures Kept(stream, 256) == stream
  {
    if stream != [] {
      KeptAll(stream[..|stream| - 1]);
      assert stream == stream[..|stream| - 1] + [stream[|stream| - 1]];
    }
  }

  /** The first sixteen of them, once there are sixteen. */
  function Take16(s: seq<Byte>): (r: seq<Byte>)
    ensures |r| <= 16
  {
    if |s| <= 16 then s else s[..16]
  }

  /** The code as printed so far. */
  function Printed(alphabet: string, drawn: seq<Byte>): string
    requires alphabet != []
  {
    Grouped(Symbols(alphabet, drawn))
  }

  lemma PrintSnoc(alphabet: string, drawn: seq<Byte>, x: Byte)
    requires alphabet != []
    ensures Printed(alphabet, drawn + [x])
         == (if |drawn| > 0 && |drawn| % 4 == 0 then Printed(alphabet, drawn) + "-" else Printed(alphabet, drawn))
            + [SymbolFor(alphabet, x)]
  {
    var s := Symbols(alphabet, drawn + [x]);
    assert Printed(alphabet, drawn) + "" == Printed(alphabet, drawn);
    assert s[..|drawn|] == Symbols(alphabet, drawn);
  }

  lemma KeptSnoc(s: seq<Byte>, x: Byte, limit: int)
    ensures Kept(s + [x], limit) == if x < limit then Kept(s, limit) + [x] else Kept(s, limit)
  {
    assert (s + [x])[..|s|] == s;
  }

  lemma TakeMore(s: seq<Byte>, t: seq<Byte>)
    ensures |s| >= 16 ==> Take16(s + t) == Take16(s)
    ensures |s| + |t| <= 16 ==> Take16(s + t) == Take16(s) + t
    ensures Take16(Take16(s) + t) == Take16(s + t)
  {
    assert |s| >= 16 ==> (s + t)[..16] == s[..16];
  }

  lemma LimitWhenEven(n: nat)
    requires 1 <= n && 256 % n == 0
    ensures Limit(n) == 256
  {
  }

  /** What has been drawn after looking at the first `i` bytes of a buffer. */
  function DrawnAfter(drawn: seq<Byte>, buf: seq<Byte>, i: nat, limit: int): (r: seq<Byte>)
    requires |drawn| <= 16 && i <= |buf|
    ensures |r| <= 16
  {
    if i == 0 then drawn
    else
      var before := DrawnAfter(drawn, buf, i - 1, limit);
      if |before| < 16 && buf[i - 1] < limit then before + [buf[i - 1]] else before
  }

  lemma TakeOneMore(s: seq<Byte>, t: seq<Byte>, x: Byte)
    ensures Take16(s + (t + [x])) == if |s + t| < 16 then Take16(s + t) + [x] else Take16(s + t)
    ensures |Take16(s + t)| < 16 <==> |s + t| < 16
  {
    assert s + (t + [x]) == (s + t) + [x];
  }

  /** It is what is kept of those bytes, up to sixteen in all. */
  lemma {:induction false} DrawnIsKept(drawn: seq<Byte>, buf: seq<Byte>, i: nat, limit: int)
    requires |drawn| <= 16 && i <= |buf|
    ensures DrawnAfter(drawn, buf, i, limit) == Take16(drawn + Kept(buf[..i], limit))
  {
    if i == 0 {
      assert drawn + Kept(buf[..0], limit) == drawn;
    } else {
      DrawnIsKept(drawn, buf, i - 1, limit);
      assert buf[..i] == buf[..i - 1] + [buf[i - 1]];
      KeptSnoc(buf[..i - 1], buf[i - 1], limit);
      TakeOneMore(drawn, Kept(buf[..i - 1], limit), buf[i - 1]);
    }
  }

  lemma {:induction false} DrawnStaysFull(drawn: seq<Byte>, buf: seq<Byte>, i: nat, limit: int)
    requires |drawn| <= 16 && i <= |buf| && |DrawnAfter(drawn, buf, i, limit)| == 16
    ensures DrawnAfter(drawn, buf, |buf|, limit) == DrawnAfter(drawn, buf, i, limit)
    decreases |buf| - i
  {
    if i < |buf| {
      DrawnStaysFull(drawn, buf, i + 1, limit);
    }
  }

  /** One pass over a freshly filled buffer: the inner loop of newRecoveryCode. */
  method DrawFromBuffer(
    alphabet: string, limit: int, buf: seq<Byte>, b: string, ghost drawn: seq<Byte>, written: nat)
    returns (b': string, ghost drawn': seq<Byte>, written': nat)
    requires alphabet != []
    requires written == |drawn| <= 16 && b == Printed(alphabet, drawn)
    ensures drawn' == DrawnAfter(drawn, buf, |buf|, limit)
    ensures written' == |drawn'| && b' == Printed(alphabet, drawn')
  {
    b', drawn', written' := b, drawn, written;
    assert DrawnAfter(drawn, buf, 0, limit) == drawn;
    for i := 0 to |buf|
      invariant drawn' == DrawnAfter(drawn, buf, i, limit)
      invariant written' == |drawn'| && b' == Printed(alphabet, drawn')
    {
      if written' == 16 {
        DrawnStaysFull(drawn, buf, i, limit);
        return;
      }
      var x := buf[i];
      if x < limit {
        PrintSnoc(alphabet, drawn', x);
        if written' > 0 && written' % 4 == 0 {
          b' := b' + "-";
        }
        b' := b' + [SymbolFor(alphabet, x)];
        written' := written' + 1;
        drawn' := drawn' + [x];
      }
    }
  }

  /** The whole buffers the source can deliver. */
  function Usable(stream: seq<Byte>): seq<Byte> {
    stream[..16 * (|stream| / 16)]
  }

  /** A whole number of buffers has been read. */
  predicate AtBlock(stream: seq<Byte>, read: nat) {
    exists blocks: nat :: blocks <= |stream| / 16 && read == 16 * blocks
  }

  lemma BlockByBlock(stream: seq<Byte>, read: nat)
    requires AtBlock(stream, read)
    ensures read <= |Usable(stream)| <= |stream|
    ensures |stream| - read < 16 ==> |Usable(stream)| == read
    ensures |stream| - read >= 16 ==> AtBlock(stream, read + 16)
  {
    var blocks: nat :| blocks <= |stream| / 16 && read == 16 * blocks;
    if |stream| - read >= 16 {
      assert blocks + 1 <= |stream| / 16 && read + 16 == 16 * (blocks + 1);
    }
  }

  /** What a whole prefix of the stream has yielded. */
  function DrawnFrom(stream: seq<Byte>, read: nat, limit: int): (r: seq<Byte>)
    requires read <= |stream|
    ensures |r| <= 16 && |r| <= read
  {
    Take16(Kept(stream[..read], limit))
  }

  /** Draws one code. `stream` is what the random source will deliver; reading
      past its end is the read error. The part of the stream not read comes back
      as `rest`. */
  method NewRecoveryCode(alphabet: string, stream: seq<Byte>) returns (r: Option<string>, rest: seq<Byte>)
    requires 1 <= |alphabet| <= 256
    ensures var drawn := DrawnFrom(stream, |Usable(stream)|, Limit(|alphabet|));
            r == if |drawn| < 16 then None else Some(Printed(alphabet, drawn))
    ensures 256 % |alphabet| == 0 && |stream| >= 16 ==>
              r == Some(Printed(alphabet, stream[..16])) && rest == stream[16..]
  {
    var limit := Limit(|alphabet|);
    var b := "";
    var read, written := 0, 0;
    ghost var drawn: seq<Byte> := [];
    if 256 % |alphabet| == 0 {
      LimitWhenEven(|alphabet|);
    }
    assert AtBlock(stream, 0) by {
      assert 0 <= |stream| / 16 && 0 == 16 * 0;
    }
    while written < 16
      invariant AtBlock(stream, read)
      invariant written == |drawn| && b == Printed(alphabet, drawn)
      invariant drawn == DrawnFrom(stream, read, limit)
      invariant limit == 256 ==> read == 0 || (read == 16 && drawn == stream[..16])
      decreases |stream| - read
    {
      BlockByBlock(stream, read);
      if |stream| - read < 16 {
        return None, stream[read..];
      }
      ReadOneMore(stream, read, limit);
      b, drawn, written := DrawFromBuffer(alphabet, limit, stream[read..read + 16], b, drawn, written);
      read := read + 16;
    }
    BlockByBlock(stream, read);
    FullIsFinal(stream, read, limit);
    return Some(b), stream[read..];
  }

  lemma ReadOneMore(stream: seq<Byte>, read: nat, limit: int)
    requires read + 16 <= |stream|
    ensures DrawnAfter(DrawnFrom(stream, read, limit), stream[read..read + 16], 16, limit)
         == DrawnFrom(stream, read + 16, limit)
    ensures limit == 256 && read == 0 ==> DrawnFrom(stream, 16, limit) == stream[..16]
  {
    var buf := stream[read..read + 16];
    assert stream[..read + 16] == stream[..read] + buf;
    assert buf[..16] == buf;
    DrawnIsKept(DrawnFrom(stream, read, limit), buf, 16, limit);
    KeptConcat(stream[..read], buf, limit);
    TakeMore(Kept(stream[..read], limit), Kept(buf, limit));
    KeptAll(stream[..16]);
  }

  lemma FullIsFinal(stream: seq<Byte>, read: nat, limit: int)
    requires read <= |Usable(stream)| && |DrawnFrom(stream, read, limit)| == 16
    ensures DrawnFrom(stream, |Usable(stream)|, limit) == DrawnFrom(stream, read, limit)
  {
    var usable := stream[..|Usable(stream)|];
    var after := usable[read..];
    assert usable == stream[..read] + after;
    KeptConcat(stream[..read], after, limit);
    TakeMore(Kept(stream[..read], limit), Kept(after, limit));
  }

  lemma AlphabetIsUsable()
    ensures IsAlphabet(ALPHABET) && |ALPHABET| == 32
  {
    assert |ALPHABET| == 32;
    forall c | c in ALPHABET
      ensures IsUpper(c) || IsDigit(c)
    {
      var i :| 0 <= i < 32 && ALPHABET[i] == c;
    }
  }

  lemma AlphabetParts()
    ensures ALPHABET == "0123456789" + "ABCDEFGHJKMNPQRSTVWXYZ"
  {
  }

  lemma InEither(a: string, b: string, c: char)
    ensures c in a + b <==> c in a || c in b
  {
  }

  lemma DigitsAre(c: char)
    ensures c in "0123456789" <==> '0' <= c <= '9'
  {
  }

  lemma LettersAre(c: char)
    ensures c in "ABCDEFGHJKMNPQRSTVWXYZ" <==> 'A' <= c <= 'Z' && c != 'I' && c != 'L' && c != 'O' && c != 'U'
  {
  }

  /** The alphabet is the digits and the capitals but for I, L, O and U, which are
      read as others or spell words. */
  lemma AlphabetIs(c: char)
    ensures c in ALPHABET <==> '0' <= c <= '9' || ('A' <= c <= 'Z' && c != 'I' && c != 'L' && c != 'O' && c != 'U')
  {
    var digits, letters := "0123456789", "ABCDEFGHJKMNPQRSTVWXYZ";
    AlphabetParts();
    InEither(digits, letters, c);
    DigitsAre(c);
    LettersAre(c);
  }

  /** The code is printed from these bytes, and normalises to the very characters
      drawn by them. */
  predicate CodeFor(code: string, drawn: seq<Byte>) {
    && code == Printed(ALPHABET, drawn)
    && Normalize(code) == Symbols(ALPHABET, drawn)
  }

  /** One code and what is stored for it. */
  method NextCode<H>(hash: string -> H, stream: seq<Byte>)
    returns (code: string, stored: Option<H>, rest: seq<Byte>)
    ensures stored.Some? <==> |stream| >= 16
    ensures stored.Some? ==>
              && CodeFor(code, stream[..16])
              && stored == Some(hash(Normalize(code)))
              && rest == stream[16..]
  {
    AlphabetIsUsable();
    var drawn, after := NewRecoveryCode(ALPHABET, stream);
    rest := after;
    if drawn.None? {
      return "", None, rest;
    }
    code := drawn.value;
    SymbolsAreOfAlphabet(ALPHABET, stream[..16]);
    NormalizeUndoesGrouped(ALPHABET, Symbols(ALPHABET, stream[..16]));
    var normalized := NormalizeRecoveryCode(code);
    stored := Some(hash(normalized));
  }

  /** The n-th sixteen bytes of the stream. */
  function NthBlock(stream: seq<Byte>, n: nat): seq<Byte>
    requires n < |stream| / 16
  {
    stream[16 * n..16 * n + 16]
  }

  lemma NextBlock(stream: seq<Byte>, n: nat)
    requires 16 * n + 16 <= |stream|
    ensures n < |stream| / 16
    ensures stream[16 * n..][..16] == NthBlock(stream, n)
    ensures stream[16 * n..][16..] == stream[16 * (n + 1)..]
  {
  }

  /** What is stored for the code is the hash of what it normalises to. */
  ghost predicate StoredFor<H>(hash: string -> H, code: string, stored: H, drawn: seq<Byte>) {
    CodeFor(code, drawn) && stored == hash(Normalize(code))
  }

  /** One code and one hash for each block of the stream so far. */
  ghost predicate Issued<H>(hash: string -> H, stream: seq<Byte>, codes: seq<string>, hashes: seq<H>) {
    && |codes| == |hashes| <= |stream| / 16
    && forall i :: 0 <= i < |codes| ==> StoredFor(hash, codes[i], hashes[i], NthBlock(stream, i))
  }

  lemma IssuedOneMore<H>(hash: string -> H, stream: seq<Byte>, codes: seq<string>, hashes: seq<H>, code: string)
    requires Issued(hash, stream, codes, hashes) && |codes| < |stream| / 16
    requires CodeFor(code, NthBlock(stream, |codes|))
    ensures Issued(hash, stream, codes + [code], hashes + [hash(Normalize(code))])
  {
    var moreCodes, moreHashes := codes + [code], hashes + [hash(Normalize(code))];
    forall i | 0 <= i < |moreCodes|
      ensures StoredFor(hash, moreCodes[i], moreHashes[i], NthBlock(stream, i))
    {
      if i < |codes| {
        assert moreCodes[i] == codes[i] && moreHashes[i] == hashes[i];
      } else {
        assert moreCodes[i] == code && moreHashes[i] == hash(Normalize(code));
      }
    }
  }

  /** A set of ten codes and what is stored for each; `hash` stands for SHA-256.
      Each code, typed back, normalises to the very characters drawn for it, and
      it is their hash that is stored. */
  method NewRecoveryCodes<H>(hash: string -> H, stream: seq<Byte>)
    returns (codes: seq<string>, hashes: seq<H>, readOk: bool)
    ensures readOk <==> |stream| >= 160
    ensures readOk ==> |codes| == 10 && Issued(hash, stream, codes, hashes)
  {
    codes, hashes, readOk := [], [], true;
    var rest := stream;
    for n := 0 to 10
      invariant |codes| == n && Issued(hash, stream, codes, hashes)
      invariant rest == stream[16 * n..]
    {
      var code, stored, after := NextCode(hash, rest);
      if stored.None? {
        readOk := false;
        return;
      }
      NextBlock(stream, n);
      IssuedOneMore(hash, stream, codes, hashes, code);
      codes := codes + [code];
      hashes := hashes + [stored.value];
      rest := after;
    }
  }

  predicate IsSeparator(c: char) {
    c == '-' || c == ' '
  }

  /** The text with dashes and spaces gone. */
  function Strip(s: string): (r: string)
    ensures |r| <= |s|
  {
    if s == [] then []
    else Strip(s[..|s| - 1]) + if IsSeparator(s[|s| - 1]) then [] else [s[|s| - 1]]
  }

  /** What a typed code is compared by: capitals, without dashes or spaces. */
  function Normalize(code: string): string {
    Strip(Upper(Trim(code)))
  }

  method NormalizeRecoveryCode(code: string) returns (r: string)
    ensures r == Normalize(code)
  {
    var text := Upper(Trim(code));
    r := "";
    for i := 0 to |text|
      invariant r == Strip(text[..i])
    {
      assert text[..i + 1][..i] == text[..i];
      if text[i] != '-' && text[i] != ' ' {
        r := r + [text[i]];
      }
    }
    assert text[..|text|] == text;
  }

  /** Six digits once spaces and dashes are gone. */
  predicate LooksLikeTotp(code: string) {
    var stripped := Strip(code);
    |stripped| == 6 && forall i :: 0 <= i < 6 ==> IsDigit(stripped[i])
  }

  method RouteToTotp(code: string) returns (r: bool)
    ensures r == LooksLikeTotp(code)
  {
    var stripped := "";
    for i := 0 to |code|
      invariant stripped == Strip(code[..i])
    {
      assert code[..i + 1][..i] == code[..i];
      if code[i] != ' ' && code[i] != '-' {
        stripped := stripped + [code[i]];
      }
    }
    assert code[..|code|] == code;
    if |stripped| != 6 {
      return false;
    }
    for i := 0 to 6
      invariant forall j :: 0 <= j < i ==> IsDigit(stripped[j])
    {
      if stripped[i] < '0' || stripped[i] > '9' {
        return false;
      }
    }
    return true;
  }

  // ---- What the printed code looks like, and that it reads back -------------------

  lemma {:induction false} GroupedLength(s: string)
    requires s != []
    ensures |Grouped(s)| == |s| + (|s| - 1) / 4
  {
    if |s| > 1 {
      GroupedLength(s[..|s| - 1]);
    }
  }

  /** Character i is printed at place i + i/4. */
  lemma {:induction false} GroupedAt(s: string, i: nat)
    requires i < |s|
    ensures i + i / 4 < |Grouped(s)| && Grouped(s)[i + i / 4] == s[i]
  {
    var n := |s| - 1;
    GroupedLength(s);
    if i < n {
      GroupedAt(s[..n], i);
    }
  }

  /** Every fifth place is a dash. */
  lemma {:induction false} DashAt(s: string, j: nat)
    requires j < |Grouped(s)| && j % 5 == 4
    ensures Grouped(s)[j] == '-'
  {
    var n := |s| - 1;
    GroupedLength(s);
    if n > 0 {
      GroupedLength(s[..n]);
      if j < |Grouped(s[..n])| {
        DashAt(s[..n], j);
      }
    }
  }

  /** Sixteen characters print in nineteen places: the character order is kept,
      and dashes stand exactly before characters 4, 8 and 12. */
  lemma GroupedShape(s: string)
    requires |s| == 16
    ensures |Grouped(s)| == 19
    ensures forall i :: 0 <= i < 16 ==> Grouped(s)[i + i / 4] == s[i]
    ensures Grouped(s)[4] == Grouped(s)[9] == Grouped(s)[14] == '-'
  {
    GroupedLength(s);
    forall i | 0 <= i < 16
      ensures Grouped(s)[i + i / 4] == s[i]
    {
      GroupedAt(s, i);
    }
    DashAt(s, 4);
    DashAt(s, 9);
    DashAt(s, 14);
  }

  lemma StripSnoc(s: string, c: char)
    ensures Strip(s + [c]) == if IsSeparator(c) then Strip(s) else Strip(s) + [c]
  {
    assert (s + [c])[..|s|] == s;
  }

  lemma {:induction false} StripConcatLength(a: string, b: string)
    ensures |Strip(a + b)| == |Strip(a)| + |Strip(b)|
  {
    if b == [] {
      assert a + b == a;
    } else {
      assert (a + b)[..|a + b| - 1] == a + b[..|b| - 1];
      StripConcatLength(a, b[..|b| - 1]);
    }
  }

  lemma {:induction false} UpperKeepsSeparators(s: string)
    ensures |Strip(Upper(s))| == |Strip(s)|
  {
    if s != [] {
      UpperKeepsSeparators(s[..|s| - 1]);
      assert Upper(s)[..|s| - 1] == Upper(s[..|s| - 1]);
    }
  }

  /** No text that reads as a generated code is taken for six digits, however it
      is spaced, dashed or cased. */
  lemma CodesAreNeverRoutedToTotp(t: string)
    requires |Normalize(t)| == 16
    ensures !LooksLikeTotp(t)
  {
    var lo := SkipForward(t, 0);
    var hi := SkipBack(t, lo, |t|);
    var before, core, after := t[..lo], t[lo..hi], t[hi..];
    StripKeepsParts(before, core, after);
    assert t == before + core + after;
    UpperKeepsSeparators(core);
    assert core == Trim(t);
  }

  lemma {:induction false} StripConcat(a: string, b: string)
    ensures Strip(a + b) == Strip(a) + Strip(b)
  {
    if b == [] {
      assert a + b == a;
    } else {
      assert (a + b)[..|a + b| - 1] == a + b[..|b| - 1];
      StripConcat(a, b[..|b| - 1]);
    }
  }

  // ---- However a code is typed -----------------------------------------------------------

  /** The letter itself, or the small one for a capital. */
  predicate InEitherCase(typed: char, c: char) {
    typed == c || ('A' <= c <= 'Z' && typed as int == c as int + 32)
  }

  /** `typed` is the code with dashes and spaces put anywhere, and letters in either
      case. */
  predicate Spells(typed: string, code: string)
    decreases |typed|
  {
    if typed == "" then code == ""
    else if typed[|typed| - 1] == '-' || typed[|typed| - 1] == ' ' then Spells(typed[..|typed| - 1], code)
    else
      && code != ""
      && InEitherCase(typed[|typed| - 1], code[|code| - 1])
      && Spells(typed[..|typed| - 1], code[..|code| - 1])
  }

  /** Capitals and digits. */
  predicate IsPlain(code: string) {
    forall i :: 0 <= i < |code| ==> 'A' <= code[i] <= 'Z' || '0' <= code[i] <= '9'
  }

  lemma StripUpperSnoc(s: string, c: char)
    ensures Strip(Upper(s + [c])) == Strip(Upper(s)) + if c == '-' || c == ' ' then [] else [UpperChar(c)]
  {
    assert Upper(s + [c]) == Upper(s) + [UpperChar(c)];
    StripSnoc(Upper(s), UpperChar(c));
  }

  lemma OneMoreTyped(typed: string, code: string, last: char, c: char)
    requires Strip(Upper(typed)) == code && InEitherCase(last, c) && IsPlain([c])
    ensures Strip(Upper(typed + [last])) == code + [c]
  {
    StripUpperSnoc(typed, last);
    assert [c][0] == c;
  }

  lemma {:induction false} SpelledStrips(typed: string, code: string)
    requires Spells(typed, code) && IsPlain(code)
    ensures Strip(Upper(typed)) == code
    decreases |typed|
  {
    if typed != "" {
      var init, last := typed[..|typed| - 1], typed[|typed| - 1];
      assert typed == init + [last];
      if last == '-' || last == ' ' {
        SpelledStrips(init, code);
        StripUpperSnoc(init, last);
      } else {
        var front, c := code[..|code| - 1], code[|code| - 1];
        assert code == front + [c];
        SpelledStrips(init, front);
        OneMoreTyped(init, front, last, c);
      }
    }
  }

  lemma {:induction false} SpelledSpaces(typed: string, code: string)
    requires Spells(typed, code) && IsPlain(code)
    ensures forall i :: 0 <= i < |typed| && IsSpace(typed[i]) ==> typed[i] == ' '
    decreases |typed|
  {
    if typed != "" {
      var init, last := typed[..|typed| - 1], typed[|typed| - 1];
      SpelledSpaces(init, if last == '-' || last == ' ' then code else code[..|code| - 1]);
    }
  }

  lemma {:induction false} BlanksStripAway(s: string)
    requires forall i :: 0 <= i < |s| ==> s[i] == ' '
    ensures Strip(Upper(s)) == ""
  {
    if s != "" {
      BlanksStripAway(s[..|s| - 1]);
      assert Upper(s)[..|s| - 1] == Upper(s[..|s| - 1]);
    }
  }

  lemma MarginsStripAway(a: string, core: string, b: string)
    requires forall i :: 0 <= i < |a| ==> a[i] == ' '
    requires forall i :: 0 <= i < |b| ==> b[i] == ' '
    ensures Strip(Upper((a + core) + b)) == Strip(Upper(core))
  {
    StripUpperConcat(a + core, b);
    StripUpperConcat(a, core);
    BlanksStripAway(a);
    BlanksStripAway(b);
  }

  lemma TrimDoesNotMatter(s: string)
    requires forall i :: 0 <= i < |s| && IsSpace(s[i]) ==> s[i] == ' '
    ensures Normalize(s) == Strip(Upper(s))
  {
    var a, b := Margins(s);
    forall i | 0 <= i < |b|
      ensures b[i] == ' '
    {
      assert s[|a| + |Trim(s)| + i] == b[i];
    }
    forall i | 0 <= i < |a|
      ensures a[i] == ' '
    {
      assert s[i] == a[i];
    }
    MarginsStripAway(a, Trim(s), b);
  }

  lemma StripUpperConcat(a: string, b: string)
    ensures Strip(Upper(a + b)) == Strip(Upper(a)) + Strip(Upper(b))
  {
    assert Upper(a + b) == Upper(a) + Upper(b);
    StripConcat(Upper(a), Upper(b));
  }

  /** Any spelling of a code normalises to it. */
  lemma AnySpellingNormalizes(typed: string, code: string)
    requires Spells(typed, code) && IsPlain(code)
    ensures Normalize(typed) == code
  {
    SpelledStrips(typed, code);
    SpelledSpaces(typed, code);
    TrimDoesNotMatter(typed);
  }

  lemma {:induction false} PrintedSpells(s: string)
    requires IsPlain(s)
    ensures Spells(Grouped(s), s)
  {
    if s != [] {
      var n := |s| - 1;
      PrintedSpells(s[..n]);
      var g := Grouped(s[..n]) + DashBefore(n);
      DashSpells(Grouped(s[..n]), n, s[..n]);
      assert Grouped(s)[..|g|] == g;
    }
  }

  lemma DashSpells(typed: string, n: nat, code: string)
    requires Spells(typed, code)
    ensures Spells(typed + DashBefore(n), code)
  {
    if DashBefore(n) == "" {
      assert typed + DashBefore(n) == typed;
    } else {
      assert (typed + "-")[..|typed|] == typed;
    }
  }

  /** Typing a printed code back gives the characters that were drawn. */
  lemma NormalizeUndoesGrouped(alphabet: string, s: string)
    requires IsAlphabet(alphabet)
    requires s != [] && forall c :: c in s ==> c in alphabet
    ensures Normalize(Grouped(s)) == s
  {
    forall i | 0 <= i < |s|
      ensures IsUpper(s[i]) || IsDigit(s[i])
    {
      assert s[i] in alphabet;
    }
    PrintedSpells(s);
    AnySpellingNormalizes(Grouped(s), s);
  }

  /** Six digits go to the authenticator, as they are. */
  lemma SixDigitsAreRouted(code: string)
    requires |code| == 6 && forall i :: 0 <= i < 6 ==> '0' <= code[i] <= '9'
    ensures LooksLikeTotp(code) && Trim(code) == code
  {
    NothingStripped(code);
    TrimIsIdentity(code);
  }

  lemma {:induction false} NothingStripped(s: string)
    requires forall i :: 0 <= i < |s| ==> '0' <= s[i] <= '9'
    ensures Strip(s) == s
  {
    if s != "" {
      NothingStripped(s[..|s| - 1]);
      assert s == s[..|s| - 1] + [s[|s| - 1]];
    }
  }

  lemma StripKeepsParts(a: string, b: string, c: string)
    ensures |Strip(b)| <= |Strip(a + b + c)|
  {
    StripConcatLength(a, b);
    StripConcatLength(a + b, c);
  }

  // ---- Rejection sampling is unbiased ---------------------------------------------

  function BytesFor(symbol: int, n: nat, bound: int): set<int>
    requires 1 <= n
  {
    set b: int | 0 <= b < bound && b % n == symbol
  }

  lemma OneMorePerBlock(symbol: int, n: nat, q: nat, base: nat)
    requires 1 <= n && 0 <= symbol < n && base == q * n
    ensures BytesFor(symbol, n, base + n) == BytesFor(symbol, n, base) + {base + symbol}
    ensures base + symbol !in BytesFor(symbol, n, base)
  {
    forall b | base <= b < base + n
      ensures b % n == b - base
    {
      ModOfOffset(q, n, b - base);
    }
  }

  lemma {:induction false} BytesForCount(symbol: int, n: nat, q: nat)
    requires 1 <= n && 0 <= symbol < n
    ensures |BytesFor(symbol, n, q * n)| == q
  {
    if q == 0 {
      assert BytesFor(symbol, n, 0) == {};
    } else {
      var base := (q - 1) * n;
      BytesForCount(symbol, n, q - 1);
      OneMorePerBlock(symbol, n, q - 1, base);
      assert q * n == base + n;
    }
  }

  lemma ModOfOffset(q: nat, n: nat, r: nat)
    requires r < n
    ensures (q * n + r) % n == r
  {
    var x := q * n + r;
    var d := x / n;
    assert x == d * n + x % n;
    if d < q {
      LessTimes(d, q, n);
    } else if q < d {
      LessTimes(q, d, n);
    }
  }

  lemma LessTimes(a: int, b: int, n: nat)
    requires a < b
    ensures a * n + n <= b * n
  {
    assert b * n == (a + 1) * n + (b - a - 1) * n;
  }

  predicate DistinctSymbols(alphabet: string) {
    forall j, k :: 0 <= j < k < |alphabet| ==> alphabet[j] != alphabet[k]
  }

  lemma DrawsExactly(alphabet: string, i: nat, b: Byte)
    requires i < |alphabet| && DistinctSymbols(alphabet)
    ensures SymbolFor(alphabet, b) == alphabet[i] <==> b % |alphabet| == i
  {
    var r := b % |alphabet|;
    assert 0 <= r < |alphabet| && SymbolFor(alphabet, b) == alphabet[r];
  }

  /** The kept bytes that draw the symbol. */
  function BytesDrawing(alphabet: string, symbol: char): set<int>
    requires alphabet != []
  {
    set b: int | 0 <= b < 256 && b < Limit(|alphabet|) && SymbolFor(alphabet, b) == symbol
  }

  /** For every alphabet of distinct symbols, each is drawn by the same number of
      kept bytes: 256/n of them, n being how many symbols there are. */
  lemma EverySymbolIsEquallyLikely(alphabet: string, i: nat)
    requires i < |alphabet| <= 256 && DistinctSymbols(alphabet)
    ensures |BytesDrawing(alphabet, alphabet[i])| == 256 / |alphabet|
  {
    var n := |alphabet|;
    BytesForCount(i, n, 256 / n);
    forall b | 0 <= b < 256 && b < Limit(n)
      ensures SymbolFor(alphabet, b) == alphabet[i] <==> b % n == i
    {
      DrawsExactly(alphabet, i, b);
    }
    assert BytesDrawing(alphabet, alphabet[i]) == BytesFor(i, n, Limit(n));
  }
}
