/** Encoded password hashes (password.go): the PHC string, its parser, and the
    verification and upgrade built on them. Argon2id itself (RFC 9106) is an
    arbitrary function. */
module PasswordHash {
  import opened Prelude
  import Base64
  import opened Numerals

  const MAX32: nat := 0xFFFF_FFFF
  const MAX8: nat := 0xFF
  const MAX_KEY_LEN: nat := 1024

  datatype Params = Params(memory: nat, time: nat, threads: nat)

  /** What this build writes: 19 MiB, two passes, one lane. */
  const COST: Params := Params(19456, 2, 1)

  datatype Decoded = Decoded(params: Params, salt: seq<Byte>, sum: seq<Byte>)

  /** argon2.IDKey: password, salt, cost, key length. */
  type Kdf = (string, seq<Byte>, Params, nat) -> seq<Byte>

  /** The one thing assumed of it: the key is as long as was asked for. */
  ghost predicate KeyLengths(kdf: Kdf) {
    forall pw, salt, p, n: nat :: |kdf(pw, salt, p, n)| == n
  }

  predicate HasDollar(s: string) {
    exists i :: 0 <= i < |s| && s[i] == '$'
  }

  /** The place of the first '$' at or after `i`, or the end. */
  function DollarFrom(s: string, i: nat): (r: nat)
    requires i <= |s|
    ensures i <= r <= |s|
    ensures forall k :: i <= k < r ==> s[k] != '$'
    ensures r < |s| ==> s[r] == '$'
    decreases |s| - i
  {
    if i < |s| && s[i] != '$' then DollarFrom(s, i + 1) else i
  }

  /** strings.Split on "$". */
  function Split(s: string): seq<string> {
    var k := DollarFrom(s, 0);
    if k == |s| then [s] else [s[..k]] + Split(s[k + 1..])
  }

  /** "m=%d,t=%d,p=%d" */
  function PrintParams(p: Params): string {
    "m=" + (Print(p.memory) + (",t=" + (Print(p.time) + (",p=" + Print(p.threads)))))
  }

  function ScanParams(s: string): Option<Params> {
    match Expect(s, "m=")
    case None => None
    case Some(s1) =>
      match ScanUnsigned(s1, MAX32)
      case None => None
      case Some((m, s2)) =>
        match Expect(s2, ",t=")
        case None => None
        case Some(s3) =>
          match ScanUnsigned(s3, MAX32)
          case None => None
          case Some((t, s4)) =>
            match Expect(s4, ",p=")
            case None => None
            case Some(s5) =>
              match ScanUnsigned(s5, MAX8)
              case None => None
              case Some((p, _)) => Some(Params(m, t, p))
  }

  function ScanVersion(s: string): Option<int> {
    match Expect(s, "v=")
    case None => None
    case Some(rest) =>
      match ScanSigned(rest)
      case None => None
      case Some((v, _)) => Some(v)
  }

  /** Fields joined by "$". */
  function Join(a: string, rest: string): string {
    a + ("$" + rest)
  }

  function Fields(params: string, salt: string, sum: string): string {
    Join("", Join("argon2id", Join("v=19", Join(params, Join(salt, sum)))))
  }

  /** The encoded form, for any parameters. */
  function Encoded(d: Decoded): string {
    Fields(PrintParams(d.params), Base64.Encode(d.salt), Base64.Encode(d.sum))
  }

  /** The checks decodeHash makes on what it has read from its fields. */
  function Assemble(version: Option<int>, params: Option<Params>, salt: Option<seq<Byte>>, sum: Option<seq<Byte>>)
    : Option<Decoded>
  {
    if version != Some(19) || params.None? then None
    else if params.value.memory == 0 || params.value.time == 0 || params.value.threads == 0 then None
    else if salt.None? || salt.value == [] || sum.None? || sum.value == [] then None
    else Some(Decoded(params.value, salt.value, sum.value))
  }

  /** decodeHash after its split on "$". */
  function DecodeParts(parts: seq<string>): Option<Decoded> {
    if |parts| != 6 || parts[1] != "argon2id" then None
    else Assemble(ScanVersion(parts[2]), ScanParams(parts[3]), Base64.Decode(parts[4]), Base64.Decode(parts[5]))
  }

  /** decodeHash; None is ErrInvalidHash. */
  function DecodeHash(encoded: string): Option<Decoded> {
    DecodeParts(Split(encoded))
  }

  function HashPassword(kdf: Kdf, password: string, salt: seq<Byte>): string {
    Encoded(Decoded(COST, salt, kdf(password, salt, COST, 32)))
  }

  /** None is ErrInvalidHash. */
  function VerifyPassword(kdf: Kdf, encoded: string, password: string): Option<bool> {
    match DecodeHash(encoded)
    case None => None
    case Some(d) =>
      if |d.sum| > MAX_KEY_LEN then None
      else Some(kdf(password, d.salt, d.params, |d.sum|) == d.sum)
  }

  function NeedsRehash(encoded: string): bool {
    match DecodeHash(encoded)
    case None => false
    case Some(d) => d.params.memory < COST.memory || d.params.time < COST.time
  }

  // ---- Round trip ------------------------------------------------------------------

  lemma SplitFirst(a: string, rest: string, parts: seq<string>)
    requires !HasDollar(a) && Split(rest) == parts
    ensures Split(Join(a, rest)) == [a] + parts
  {
    var s := Join(a, rest);
    assert forall i :: 0 <= i < |a| ==> s[i] == a[i];
    assert s[|a|] == '$';
    assert DollarFrom(s, 0) == |a|;
    assert s[..|a|] == a && s[|a| + 1..] == rest;
  }

  lemma SplitLast(a: string)
    requires !HasDollar(a)
    ensures Split(a) == [a]
  {
    assert DollarFrom(a, 0) == |a|;
  }

  lemma EncodedHasNoDollar(b: seq<Byte>)
    ensures !HasDollar(Base64.Encode(b))
  {
    Base64.EncodedChars(b);
    forall i | 0 <= i < |Base64.Encode(b)|
      ensures Base64.Encode(b)[i] != '$'
    {
      assert Base64.IsSymbolChar(Base64.Encode(b)[i]);
    }
  }

  lemma NoDollarConcat(a: string, b: string)
    requires !HasDollar(a) && !HasDollar(b)
    ensures !HasDollar(a + b)
  {
  }

  lemma ParamsHaveNoDollar(p: Params)
    ensures !HasDollar(PrintParams(p))
  {
    var t3 := ",p=" + Print(p.threads);
    NoDollarConcat(",p=", Print(p.threads));
    var t2 := Print(p.time) + t3;
    NoDollarConcat(Print(p.time), t3);
    var t1 := ",t=" + t2;
    NoDollarConcat(",t=", t2);
    var t0 := Print(p.memory) + t1;
    NoDollarConcat(Print(p.memory), t1);
    NoDollarConcat("m=", t0);
  }

  lemma ExpectLiteral(literal: string, rest: string)
    ensures Expect(literal + rest, literal) == Some(rest)
  {
  }

  /** The three cost numbers read back as they were printed. */
  lemma ScanPrintedParams(p: Params)
    requires p.memory <= MAX32 && p.time <= MAX32 && p.threads <= MAX8
    ensures ScanParams(PrintParams(p)) == Some(p)
  {
    var t3 := ",p=" + Print(p.threads);
    var t1 := ",t=" + (Print(p.time) + t3);
    ExpectLiteral("m=", Print(p.memory) + t1);
    ScanPrinted(p.memory, t1, MAX32);
    ExpectLiteral(",t=", Print(p.time) + t3);
    ScanPrinted(p.time, t3, MAX32);
    ExpectLiteral(",p=", Print(p.threads));
    ScanPrinted(p.threads, "", MAX8);
    assert Print(p.threads) + "" == Print(p.threads);
  }

  lemma ScanVersion19()
    ensures ScanVersion("v=19") == Some(19)
  {
    assert Print(19) == "19";
    ExpectLiteral("v=", "19");
    assert "v=" + "19" == "v=19";
    ScanPrintedSigned(19);
  }

  lemma SplitTwo(a: string, b: string)
    requires !HasDollar(a) && !HasDollar(b)
    ensures Split(Join(a, b)) == [a, b]
  {
    SplitLast(b);
    SplitFirst(a, b, [b]);
  }

  lemma SplitThree(a: string, rest: string, b: string, c: string)
    requires !HasDollar(a) && Split(rest) == [b, c]
    ensures Split(Join(a, rest)) == [a, b, c]
  {
    SplitFirst(a, rest, [b, c]);
  }

  lemma SplitFour(a: string, rest: string, b: string, c: string, d: string)
    requires !HasDollar(a) && Split(rest) == [b, c, d]
    ensures Split(Join(a, rest)) == [a, b, c, d]
  {
    SplitFirst(a, rest, [b, c, d]);
  }

  lemma SplitFive(a: string, rest: string, b: string, c: string, d: string, e: string)
    requires !HasDollar(a) && Split(rest) == [b, c, d, e]
    ensures Split(Join(a, rest)) == [a, b, c, d, e]
  {
    SplitFirst(a, rest, [b, c, d, e]);
  }

  lemma SplitSix(a: string, rest: string, b: string, c: string, d: string, e: string, f: string)
    requires !HasDollar(a) && Split(rest) == [b, c, d, e, f]
    ensures Split(Join(a, rest)) == [a, b, c, d, e, f]
  {
    SplitFirst(a, rest, [b, c, d, e, f]);
  }

  lemma SplitInner(p: string, salt: string, sum: string)
    requires !HasDollar(p) && !HasDollar(salt) && !HasDollar(sum)
    ensures Split(Join(p, Join(salt, sum))) == [p, salt, sum]
  {
    SplitTwo(salt, sum);
    SplitThree(p, Join(salt, sum), salt, sum);
  }

  lemma SplitOuter(rest: string, inner: string, p: string, salt: string, sum: string)
    requires Split(inner) == [p, salt, sum] && rest == Join("v=19", inner)
    ensures Split(rest) == ["v=19", p, salt, sum]
    ensures Split(Join("argon2id", rest)) == ["argon2id", "v=19", p, salt, sum]
  {
    SplitFour("v=19", inner, p, salt, sum);
    SplitFive("argon2id", rest, "v=19", p, salt, sum);
  }

  lemma SplitFields(p: string, salt: string, sum: string)
    requires !HasDollar(p) && !HasDollar(salt) && !HasDollar(sum)
    ensures Split(Fields(p, salt, sum)) == ["", "argon2id", "v=19", p, salt, sum]
  {
    var inner := Join(p, Join(salt, sum));
    SplitInner(p, salt, sum);
    var rest := Join("v=19", inner);
    SplitOuter(rest, inner, p, salt, sum);
    SplitSix("", Join("argon2id", rest), "argon2id", "v=19", p, salt, sum);
  }

  lemma SixElements(parts: seq<string>, a: string, b: string, c: string, d: string, e: string, f: string)
    requires parts == [a, b, c, d, e, f]
    ensures |parts| == 6 && parts[1] == b && parts[2] == c && parts[3] == d && parts[4] == e && parts[5] == f
  {
  }

  lemma DecodeRead(encoded: string, parts: seq<string>, d: Decoded)
    requires 0 < d.params.memory && 0 < d.params.time && 0 < d.params.threads
    requires d.salt != [] && d.sum != []
    requires Split(encoded) == parts && |parts| == 6 && parts[1] == "argon2id"
    requires ScanVersion(parts[2]) == Some(19) && ScanParams(parts[3]) == Some(d.params)
    requires Base64.Decode(parts[4]) == Some(d.salt) && Base64.Decode(parts[5]) == Some(d.sum)
    ensures DecodeHash(encoded) == Some(d)
  {
  }

  /** For all nonzero 32-bit and 8-bit costs and all nonempty salts and digests,
      the parser gives back exactly what was printed. */
  lemma DecodeInvertsEncode(d: Decoded)
    requires 0 < d.params.memory <= MAX32 && 0 < d.params.time <= MAX32 && 0 < d.params.threads <= MAX8
    requires d.salt != [] && d.sum != []
    ensures DecodeHash(Encoded(d)) == Some(d)
  {
    EncodedHasNoDollar(d.sum);
    EncodedHasNoDollar(d.salt);
    ParamsHaveNoDollar(d.params);
    var p, salt, sum := PrintParams(d.params), Base64.Encode(d.salt), Base64.Encode(d.sum);
    var parts := Split(Encoded(d));
    SplitFields(p, salt, sum);
    SixElements(parts, "", "argon2id", "v=19", p, salt, sum);
    ScanVersion19();
    ScanPrintedParams(d.params);
    Base64.DecodeEncode(d.salt);
    Base64.DecodeEncode(d.sum);
    DecodeRead(Encoded(d), parts, d);
  }

  // ---- Verification and upgrade ----------------------------------------------------

  lemma FreshHashDecodes(kdf: Kdf, password: string, salt: seq<Byte>)
    requires KeyLengths(kdf) && salt != []
    ensures DecodeHash(HashPassword(kdf, password, salt))
         == Some(Decoded(COST, salt, kdf(password, salt, COST, 32)))
  {
    assert |kdf(password, salt, COST, 32)| == 32;
    DecodeInvertsEncode(Decoded(COST, salt, kdf(password, salt, COST, 32)));
  }

  lemma HeadReads(rest: string)
    ensures Join("", Join("argon2id", Join("v=19", rest))) == "$argon2id$v=19$" + rest
  {
    assert Join("v=19", rest) == "v=19$" + rest;
    assert Join("argon2id", "v=19$" + rest) == "argon2id$v=19$" + rest;
    assert Join("", "argon2id$v=19$" + rest) == "$argon2id$v=19$" + rest;
  }

  lemma CostDigits()
    ensures Print(19456) == "19456" && Print(2) == "2" && Print(1) == "1"
  {
    assert Print(19) == "19" && Print(194) == "194" && Print(1945) == "1945";
  }

  lemma CostReads()
    ensures PrintParams(COST) == "m=19456,t=2,p=1"
  {
    CostDigits();
    var passes := "2" + (",p=" + "1");
    assert passes == "2,p=1";
    assert "19456" + (",t=" + passes) == "19456,t=2,p=1";
  }

  /** What a new hash looks like: the algorithm's version, this build's cost, and
      the salt and a 32-byte key at that cost. */
  lemma FreshHashReads(kdf: Kdf, password: string, salt: seq<Byte>)
    ensures HashPassword(kdf, password, salt)
         == "$argon2id$v=19$" + Join("m=19456,t=2,p=1", Join(Base64.Encode(salt),
                                       Base64.Encode(kdf(password, salt, Params(19456, 2, 1), 32))))
  {
    CostReads();
    HeadReads(Join(PrintParams(COST), Join(Base64.Encode(salt), Base64.Encode(kdf(password, salt, COST, 32)))));
  }

  /** What is taken for a hash at all: six fields, of this algorithm and version, with
      three costs in range, a salt and a digest. */
  lemma OnlyHashesDecode(encoded: string)
    ensures DecodeHash(encoded).Some? ==>
              var d, parts := DecodeHash(encoded).value, Split(encoded);
              && |parts| == 6 && parts[1] == "argon2id" && ScanVersion(parts[2]) == Some(19)
              && 0 < d.params.memory <= 0xFFFF_FFFF && 0 < d.params.time <= 0xFFFF_FFFF
              && 0 < d.params.threads <= 0xFF
              && d.salt != [] && d.sum != []
  {
  }

  /** A stored hash is checked at the cost, under the salt and to the length that it
      says itself, whatever this build would write; one longer than 1024 bytes is
      refused as corrupt. It is up for an upgrade when it was made with less memory
      or fewer passes than 19 MiB and two. */
  lemma VerifiedAtItsOwnCost(kdf: Kdf, d: Decoded, password: string)
    requires 0 < d.params.memory <= 0xFFFF_FFFF && 0 < d.params.time <= 0xFFFF_FFFF && 0 < d.params.threads <= 0xFF
    requires d.salt != [] && d.sum != []
    ensures VerifyPassword(kdf, Encoded(d), password)
         == if |d.sum| <= 1024 then Some(kdf(password, d.salt, d.params, |d.sum|) == d.sum) else None
    ensures NeedsRehash(Encoded(d)) <==> d.params.memory < 19456 || d.params.time < 2
  {
    DecodeInvertsEncode(d);
  }

  /** A fresh hash verifies its password and is never up for a rehash. It accepts
      another password only on a collision of the key derivation. */
  lemma FreshHashVerifies(kdf: Kdf, password: string, salt: seq<Byte>, other: string)
    requires KeyLengths(kdf) && salt != []
    ensures VerifyPassword(kdf, HashPassword(kdf, password, salt), password) == Some(true)
    ensures !NeedsRehash(HashPassword(kdf, password, salt))
    ensures VerifyPassword(kdf, HashPassword(kdf, password, salt), other)
         == Some(kdf(other, salt, COST, 32) == kdf(password, salt, COST, 32))
  {
    FreshHashDecodes(kdf, password, salt);
    assert |kdf(password, salt, COST, 32)| == 32;
  }

  /** The hash an account holds after a login with `password` (authenticator.go:246-253). */
  function AfterLogin(kdf: Kdf, stored: string, password: string, salt: seq<Byte>): string {
    if NeedsRehash(stored) then HashPassword(kdf, password, salt) else stored
  }

  /** A login leaves a hash that verifies the same password, and no later login
      rehashes it again. */
  lemma UpgradeIsFinal(kdf: Kdf, stored: string, password: string, salt: seq<Byte>, later: string, salt': seq<Byte>)
    requires KeyLengths(kdf) && salt != []
    requires VerifyPassword(kdf, stored, password) == Some(true)
    ensures var upgraded := AfterLogin(kdf, stored, password, salt);
            && VerifyPassword(kdf, upgraded, password) == Some(true)
            && !NeedsRehash(upgraded)
            && AfterLogin(kdf, upgraded, later, salt') == upgraded
  {
    FreshHashVerifies(kdf, password, salt, password);
  }
}
