/** Decimal numbers as fmt.Sprintf prints them and fmt.Sscanf reads them. */
module Numerals {
  import opened Prelude
  import opened Text

  function DigitChar(d: int): char
    requires 0 <= d < 10
  {
    '0' + d as char
  }

  function DigitValue(c: char): int {
    if IsDigit(c) then (c - '0') as int else 0
  }

  /** "%d" of a non-negative number. */
  function Print(n: nat): (s: string)
    ensures s != ""
    ensures forall i :: 0 <= i < |s| ==> IsDigit(s[i])
  {
    if n < 10 then [DigitChar(n)] else Print(n / 10) + [DigitChar(n % 10)]
  }

  /** The number a run of digits stands for. */
  function Value(s: string): nat {
    if s == "" then 0 else 10 * Value(s[..|s| - 1]) + DigitValue(s[|s| - 1])
  }

  lemma {:induction false} ValueOfPrint(n: nat)
    ensures Value(Print(n)) == n
  {
    if n >= 10 {
      ValueOfPrint(n / 10);
      assert Print(n)[..|Print(n)| - 1] == Print(n / 10);
    }
  }

  /** Where the run of digits beginning at `i` ends. */
  function DigitsEnd(s: string, i: nat): (r: nat)
    requires i <= |s|
    ensures i <= r <= |s|
    ensures forall k :: i <= k < r ==> IsDigit(s[k])
    ensures r < |s| ==> !IsDigit(s[r])
    decreases |s| - i
  {
    if i < |s| && IsDigit(s[i]) then DigitsEnd(s, i + 1) else i
  }

  /** Where Sscanf's blank skipping stops; None when it meets a newline. */
  function SkipBlanks(s: string, i: nat): (r: Option<nat>)
    requires i <= |s|
    ensures r.Some? ==> i <= r.value <= |s|
    ensures i < |s| && IsDigit(s[i]) ==> r == Some(i)
    decreases |s| - i
  {
    if i < |s| && s[i] == '\n' then None
    else if i < |s| && IsSpace(s[i]) then SkipBlanks(s, i + 1)
    else Some(i)
  }

  /** Reads an unsigned number no larger than `max`, giving the number and what
      follows it: Sscanf's "%d" into an unsigned target. */
  function ScanUnsigned(s: string, max: nat): Option<(nat, string)> {
    match SkipBlanks(s, 0)
    case None => None
    case Some(i) =>
      var j := DigitsEnd(s, i);
      if i == j || Value(s[i..j]) > max then None else Some((Value(s[i..j]), s[j..]))
  }

  /** Sscanf's "%d" into a 64-bit signed target: an optional sign first. */
  function ScanSigned(s: string): Option<(int, string)> {
    match SkipBlanks(s, 0)
    case None => None
    case Some(i) =>
      if i < |s| && (s[i] == '+' || s[i] == '-') then
        var j := DigitsEnd(s, i + 1);
        if i + 1 == j then None
        else
          var n: int := Value(s[i + 1..j]);
          if s[i] == '+' then (if n < 0x8000_0000_0000_0000 then Some((n, s[j..])) else None)
          else if n <= 0x8000_0000_0000_0000 then Some((-n, s[j..]))
          else None
      else
        var j := DigitsEnd(s, i);
        if i == j || Value(s[i..j]) >= 0x8000_0000_0000_0000 then None
        else Some((Value(s[i..j]), s[j..]))
  }

  /** Matches a literal of the format. */
  function Expect(s: string, literal: string): Option<string> {
    if literal <= s then Some(s[|literal|..]) else None
  }

  lemma PrintedRunEnds(n: nat, rest: string)
    requires rest == "" || !IsDigit(rest[0])
    ensures DigitsEnd(Print(n) + rest, 0) == |Print(n)|
  {
    var s := Print(n) + rest;
    assert forall k :: 0 <= k < |Print(n)| ==> s[k] == Print(n)[k];
    if rest != "" {
      assert s[|Print(n)|] == rest[0];
    }
  }

  /** What was printed is read back, and the rest is left for the next verb. */
  lemma ScanPrinted(n: nat, rest: string, max: nat)
    requires n <= max && (rest == "" || !IsDigit(rest[0]))
    ensures ScanUnsigned(Print(n) + rest, max) == Some((n, rest))
  {
    var s := Print(n) + rest;
    assert s[0] == Print(n)[0];
    PrintedRunEnds(n, rest);
    assert s[0..|Print(n)|] == Print(n) && s[|Print(n)|..] == rest;
    ValueOfPrint(n);
  }

  lemma ScanPrintedSigned(n: nat)
    requires n < 0x8000_0000_0000_0000
    ensures ScanSigned(Print(n)) == Some((n, ""))
  {
    PrintedRunEnds(n, "");
    assert Print(n) + "" == Print(n);
    assert Print(n)[0..|Print(n)|] == Print(n);
    ValueOfPrint(n);
  }
}
