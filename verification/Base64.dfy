/** Unpadded standard base64 (sections 3.2 and 4 of RFC 4648), as Go's
    base64.RawStdEncoding writes and reads it. */
module Base64 {
  import opened Prelude

  type Sextet = n: int | 0 <= n < 64

  function Symbol(n: Sextet): char {
    if n < 26 then 'A' + n as char
    else if n < 52 then 'a' + (n - 26) as char
    else if n < 62 then '0' + (n - 52) as char
    else if n == 62 then '+'
    else '/'
  }

  function ValueOf(c: char): Option<Sextet> {
    if 'A' <= c <= 'Z' then Some((c - 'A') as int)
    else if 'a' <= c <= 'z' then Some((c - 'a') as int + 26)
    else if '0' <= c <= '9' then Some((c - '0') as int + 52)
    else if c == '+' then Some(62)
    else if c == '/' then Some(63)
    else None
  }

  lemma ValueOfSymbol(n: Sextet)
    ensures ValueOf(Symbol(n)) == Some(n)
  {
  }

  /** The sextets of up to three bytes, missing bits read as zero. */
  function Sextets(b: seq<Byte>): (r: seq<Sextet>)
    requires 1 <= |b| <= 3
    ensures |r| == |b| + 1
  {
    if |b| == 1 then [b[0] / 4, (b[0] % 4) * 16]
    else if |b| == 2 then [b[0] / 4, (b[0] % 4) * 16 + b[1] / 16, (b[1] % 16) * 4]
    else [b[0] / 4, (b[0] % 4) * 16 + b[1] / 16, (b[1] % 16) * 4 + b[2] / 64, b[2] % 64]
  }

  /** The bytes of two to four sextets; left-over low bits are ignored, since
      the encoding is not strict. */
  function Bytes(v: seq<Sextet>): (r: seq<Byte>)
    requires 2 <= |v| <= 4
    ensures |r| == |v| - 1
  {
    var a: int, b: int := v[0], v[1];
    var first := a * 4 + b / 16;
    if |v| == 2 then [first]
    else
      var c: int := v[2];
      var second := (b % 16) * 16 + c / 4;
      if |v| == 3 then [first, second]
      else
        var d: int := v[3];
        var third := (c % 4) * 64 + d;
        [first, second, third]
  }

  lemma FromTwoSextets(b: seq<Byte>)
    requires |b| == 1
    ensures Bytes(Sextets(b)) == b
  {
  }

  lemma FromThreeSextets(b: seq<Byte>)
    requires |b| == 2
    ensures Bytes(Sextets(b)) == b
  {
  }

  lemma FromFourSextets(b: seq<Byte>)
    requires |b| == 3
    ensures Bytes(Sextets(b)) == b
  {
    var x: int, y: int, z: int := b[0], b[1], b[2];
    assert (x / 4) * 4 + ((x % 4) * 16 + y / 16) / 16 == x;
    assert (((x % 4) * 16 + y / 16) % 16) * 16 + ((y % 16) * 4 + z / 64) / 4 == y;
    assert (((y % 16) * 4 + z / 64) % 4) * 64 + z % 64 == z;
  }

  lemma BytesOfSextets(b: seq<Byte>)
    requires 1 <= |b| <= 3
    ensures Bytes(Sextets(b)) == b
  {
    if |b| == 1 {
      FromTwoSextets(b);
    } else if |b| == 2 {
      FromThreeSextets(b);
    } else {
      FromFourSextets(b);
    }
  }

  function Symbols(v: seq<Sextet>): (r: string)
    ensures |r| == |v|
    ensures forall i :: 0 <= i < |v| ==> r[i] == Symbol(v[i])
  {
    seq(|v|, i requires 0 <= i < |v| => Symbol(v[i]))
  }

  function Values(s: string): (r: Option<seq<Sextet>>)
    ensures r.Some? ==> |r.value| == |s| && forall i :: 0 <= i < |s| ==> ValueOf(s[i]) == Some(r.value[i])
    ensures r.None? ==> exists i :: 0 <= i < |s| && ValueOf(s[i]).None?
  {
    if s == "" then Some([])
    else
      match (ValueOf(s[0]), Values(s[1..]))
      case (Some(v), Some(vs)) => Some([v] + vs)
      case _ => None
  }

  lemma ValuesOfSymbols(v: seq<Sextet>)
    ensures Values(Symbols(v)) == Some(v)
  {
    forall i | 0 <= i < |v|
      ensures ValueOf(Symbols(v)[i]) == Some(v[i])
    {
      ValueOfSymbol(v[i]);
    }
    assert Values(Symbols(v)).value == v;
  }

  function Encode(b: seq<Byte>): string {
    if b == [] then ""
    else if |b| <= 3 then Symbols(Sextets(b))
    else Symbols(Sextets(b[..3])) + Encode(b[3..])
  }

  /** Go's decoder skips carriage returns and newlines anywhere. */
  function WithoutNewlines(s: string): (r: string)
    ensures |r| <= |s|
    ensures (forall i :: 0 <= i < |s| ==> s[i] != '\r' && s[i] != '\n') ==> r == s
  {
    if s == "" then ""
    else if s[0] == '\r' || s[0] == '\n' then WithoutNewlines(s[1..])
    else [s[0]] + WithoutNewlines(s[1..])
  }

  function DecodeClean(s: string): Option<seq<Byte>> {
    if s == "" then Some([])
    else if |s| == 1 then None
    else
      var head := if |s| <= 4 then s else s[..4];
      match Values(head)
      case None => None
      case Some(v) =>
        if |s| <= 4 then Some(Bytes(v))
        else
          match DecodeClean(s[4..])
          case None => None
          case Some(rest) => Some(Bytes(v) + rest)
  }

  function Decode(s: string): Option<seq<Byte>> {
    DecodeClean(WithoutNewlines(s))
  }

  predicate IsSymbolChar(c: char) {
    ValueOf(c).Some?
  }

  lemma {:induction false} EncodedChars(b: seq<Byte>)
    ensures forall i :: 0 <= i < |Encode(b)| ==> IsSymbolChar(Encode(b)[i])
    ensures b != [] ==> |Encode(b)| >= 2
  {
    if b != [] {
      var head := if |b| <= 3 then b else b[..3];
      forall i | 0 <= i < |Sextets(head)|
        ensures IsSymbolChar(Symbols(Sextets(head))[i])
      {
        ValueOfSymbol(Sextets(head)[i]);
      }
      if |b| > 3 {
        EncodedChars(b[3..]);
      }
    }
  }

  lemma {:induction false} DecodeCleanEncode(b: seq<Byte>)
    ensures DecodeClean(Encode(b)) == Some(b)
  {
    if b != [] {
      var head := if |b| <= 3 then b else b[..3];
      BytesOfSextets(head);
      ValuesOfSymbols(Sextets(head));
      if |b| > 3 {
        var tail := Encode(b[3..]);
        DecodeCleanEncode(b[3..]);
        EncodedChars(b[3..]);
        var s := Symbols(Sextets(head)) + tail;
        assert s[..4] == Symbols(Sextets(head)) && s[4..] == tail;
        assert b == b[..3] + b[3..];
      }
    }
  }

  lemma NothingToSkip(s: string)
    requires forall i :: 0 <= i < |s| ==> IsSymbolChar(s[i])
    ensures Decode(s) == DecodeClean(s)
  {
    assert forall i :: 0 <= i < |s| ==> IsSymbolChar(s[i]) && s[i] != '\r' && s[i] != '\n';
  }

  /** Every byte string survives encoding and decoding. */
  lemma DecodeEncode(b: seq<Byte>)
    ensures Decode(Encode(b)) == Some(b)
  {
    EncodedChars(b);
    NothingToSkip(Encode(b));
    DecodeCleanEncode(b);
  }

  // ---- That it is the standard encoding -------------------------------------------------

  /** The alphabet of table 1 of RFC 4648, by ASCII code. */
  lemma SymbolsAreStandard(n: Sextet)
    ensures Symbol(n) as int
         == if n <= 25 then 65 + n else if n <= 51 then 71 + n else if n <= 61 then n - 4
            else if n == 62 then 43 else 47
  {
  }

  /** The bits are taken from the left: the bytes of a group and its sextets are
      the same number, padded with zero bits on the right. */
  lemma SextetsKeepTheBits(b: seq<Byte>)
    requires 1 <= |b| <= 3
    ensures Number(b, 256) * (if |b| == 1 then 16 else if |b| == 2 then 4 else 1) == Number(Sextets(b), 64)
  {
    var v := Sextets(b);
    FirstDigits(b, 256);
    FirstDigits(v, 64);
  }

  /** The number whose digits these are. */
  function Number(digits: seq<int>, base: nat): int {
    if digits == [] then 0 else Number(digits[..|digits| - 1], base) * base + digits[|digits| - 1]
  }

  lemma FirstDigits(d: seq<int>, base: nat)
    ensures |d| == 1 ==> Number(d, base) == d[0]
    ensures |d| == 2 ==> Number(d, base) == d[0] * base + d[1]
    ensures |d| == 3 ==> Number(d, base) == (d[0] * base + d[1]) * base + d[2]
    ensures |d| == 4 ==> Number(d, base) == ((d[0] * base + d[1]) * base + d[2]) * base + d[3]
  {
    if 1 <= |d| <= 4 {
      var front := d[..|d| - 1];
      FirstDigits(front, base);
    }
  }
}
