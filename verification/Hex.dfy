/** Hexadecimal text of byte strings. */
module Hex {

  /** The digit for a half byte, in lower case. */
  function HexDigit(h: bv4): char {
    match h
    case 0 => '0' case 1 => '1' case 2 => '2' case 3 => '3'
    case 4 => '4' case 5 => '5' case 6 => '6' case 7 => '7'
    case 8 => '8' case 9 => '9' case 10 => 'a' case 11 => 'b'
    case 12 => 'c' case 13 => 'd' case 14 => 'e' case _ => 'f'
  }

  /** Two digits a byte, high half first. */
  function HexOf(s: seq<bv8>): (r: seq<char>)
    ensures |r| == 2 * |s|
  {
    if |s| == 0 then []
    else HexOf(s[..|s| - 1]) + [HexDigit((s[|s| - 1] >> 4) as bv4), HexDigit((s[|s| - 1] & 0xF) as bv4)]
  }

  function Hb2Hex(half: bv8): char {
    var hb := half & 0xF;
    if hb < 10 then ('0' as int + hb as int) as char else ('a' as int + hb as int - 10) as char
  }

  lemma Hb2HexIsDigit(half: bv8)
    ensures Hb2Hex(half) == HexDigit((half & 0xF) as bv4)
  {
    var hb := half & 0xF;
    if {
      case hb == 0 => case hb == 1 => case hb == 2 => case hb == 3 =>
      case hb == 4 => case hb == 5 => case hb == 6 => case hb == 7 =>
      case hb == 8 => case hb == 9 => case hb == 10 => case hb == 11 =>
      case hb == 12 => case hb == 13 => case hb == 14 => case hb == 15 =>
    }
  }

  lemma HighHalf(b: bv8)
    ensures (b >> 4) & 0xF == b >> 4
  {}

  /** The loop that renders a digest. */
  method ToHex(s: seq<bv8>) returns (r: seq<char>)
    ensures r == HexOf(s)
  {
    r := [];
    for i := 0 to |s|
      invariant r == HexOf(s[..i])
    {
      Hb2HexIsDigit(s[i] >> 4);
      Hb2HexIsDigit(s[i]);
      HighHalf(s[i]);
      assert s[..i + 1][..i] == s[..i];
      r := r + [Hb2Hex(s[i] >> 4), Hb2Hex(s[i])];
    }
    assert s[..|s|] == s;
  }

  function LowerChar(c: char): char {
    if 'A' <= c <= 'F' then (c as int + ('a' as int - 'A' as int)) as char else c
  }

  /** The first 32 characters with A..F put in lower case. */
  function Lower(s: seq<char>): (r: seq<char>)
    requires |s| >= 32
    ensures |r| == 33
  {
    seq(32, i requires 0 <= i < 32 => LowerChar(s[i])) + ['\0']
  }

  /** strncmp(a, b, n) == 0: equal up to n characters or a common terminator. */
  predicate EqualUpTo(a: seq<char>, b: seq<char>, n: nat)
    requires n <= |a| && n <= |b|
    decreases n
  {
    n == 0 || (a[0] == b[0] && (a[0] == '\0' || EqualUpTo(a[1..], b[1..], n - 1)))
  }

  /** The C string in a field, or its first n characters. */
  function Text(s: seq<char>, n: nat): seq<char>
    requires n <= |s|
    decreases n
  {
    if n == 0 || s[0] == '\0' then [] else [s[0]] + Text(s[1..], n - 1)
  }

  lemma {:induction false} EqualUpToIsSameText(a: seq<char>, b: seq<char>, n: nat)
    requires n <= |a| && n <= |b|
    ensures EqualUpTo(a, b, n) <==> Text(a, n) == Text(b, n)
    decreases n
  {
    if n > 0 && a[0] != '\0' && b[0] != '\0' {
      EqualUpToIsSameText(a[1..], b[1..], n - 1);
      assert Text(a, n)[0] == a[0] && Text(b, n)[0] == b[0];
      assert Text(a, n)[1..] == Text(a[1..], n - 1) && Text(b, n)[1..] == Text(b[1..], n - 1);
    }
  }

  lemma {:induction false} EqualUpToIsEqual(a: seq<char>, b: seq<char>, n: nat)
    requires n <= |a| && n <= |b| && '\0' !in a[..n]
    ensures EqualUpTo(a, b, n) <==> a[..n] == b[..n]
  {
    if n > 0 {
      assert a[..n] == [a[0]] + a[1..][..n - 1];
      assert b[..n] == [b[0]] + b[1..][..n - 1];
      EqualUpToIsEqual(a[1..], b[1..], n - 1);
    }
  }

  lemma {:induction false} HexHasNoTerminator(s: seq<bv8>)
    ensures '\0' !in HexOf(s)
  {
    if |s| > 0 {
      HexHasNoTerminator(s[..|s| - 1]);
    }
  }

  lemma DigitIsLower(h: bv4)
    ensures HexDigit(h) as int < 256 && LowerChar(HexDigit(h)) == HexDigit(h)
  {}

  /** Every digit is one byte, and not changed by being put in lower case. */
  lemma {:induction false} HexIsLower(s: seq<bv8>)
    ensures forall c :: c in HexOf(s) ==> c as int < 256 && LowerChar(c) == c
  {
    if |s| > 0 {
      HexIsLower(s[..|s| - 1]);
      DigitIsLower((s[|s| - 1] >> 4) as bv4);
      DigitIsLower((s[|s| - 1] & 0xF) as bv4);
    }
  }

  // ---- reading the digits back ----

  function DigitValue(c: char): bv4 {
    match c
    case '0' => 0 case '1' => 1 case '2' => 2 case '3' => 3
    case '4' => 4 case '5' => 5 case '6' => 6 case '7' => 7
    case '8' => 8 case '9' => 9 case 'a' => 10 case 'b' => 11
    case 'c' => 12 case 'd' => 13 case 'e' => 14 case _ => 15
  }

  lemma DigitRoundTrip(h: bv4)
    ensures DigitValue(HexDigit(h)) == h
  {}

  lemma Halves(b: bv8, c: bv8)
    requires (b >> 4) as bv4 == (c >> 4) as bv4 && (b & 0xF) as bv4 == (c & 0xF) as bv4
    ensures b == c
  {}

  lemma SameDigits(b: bv8, c: bv8)
    requires HexDigit((b >> 4) as bv4) == HexDigit((c >> 4) as bv4)
    requires HexDigit((b & 0xF) as bv4) == HexDigit((c & 0xF) as bv4)
    ensures b == c
  {
    hide HexDigit, DigitValue;
    DigitRoundTrip((b >> 4) as bv4);
    DigitRoundTrip((c >> 4) as bv4);
    DigitRoundTrip((b & 0xF) as bv4);
    DigitRoundTrip((c & 0xF) as bv4);
    Halves(b, c);
  }

  lemma HexLength(s: seq<bv8>)
    ensures |HexOf(s)| == 2 * |s|
  {}

  lemma LastDigits(s: seq<bv8>)
    requires |s| > 0
    ensures var n := |s| - 1;
            && |HexOf(s)| == 2 * n + 2 && HexOf(s)[..2 * n] == HexOf(s[..n])
            && HexOf(s)[2 * n] == HexDigit((s[n] >> 4) as bv4) && HexOf(s)[2 * n + 1] == HexDigit((s[n] & 0xF) as bv4)
  {
    hide HexDigit;
  }

  /** Equal hex text means equal bytes. */
  lemma {:induction false} HexInjective(s: seq<bv8>, t: seq<bv8>)
    requires HexOf(s) == HexOf(t)
    ensures s == t
  {
    hide HexDigit, HexOf;
    if |s| > 0 {
      var n := |s| - 1;
      HexLength(s);
      HexLength(t);
      assert |t| == |s|;
      LastDigits(s);
      LastDigits(t);
      HexInjective(s[..n], t[..n]);
      SameDigits(s[n], t[n]);
      assert s == s[..n] + [s[n]] && t == t[..n] + [t[n]];
    }
  }
}
